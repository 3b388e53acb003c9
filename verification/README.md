# A model of the banking core

This project models the parts of the banking service where money, messages and
rules can go wrong, and proves what they keep:

* the **ledger**: deposits, withdrawals, transfers and reversals over account
  rows and an append-only table of entries, first as values (`Ledger`), then as
  the service object with its transactions and its chain of validators
  (`LedgerService`, `ValidationChain`, and in `Refusals` what a caller is told),
  then over whole runs (`LedgerRuns`, `DailyLimit`) and
  finally with any number of transactions interleaved under row locks
  (`Concurrency`, `Serialisability`, `ReversalRaces`, `OverlappingReversals`,
  `Liveness`, `Deadlocks`); `AccountIds` and `MixedCaseTransfers` are about the
  texts by which requests name accounts;
* the **fraud rule language**: tokenizer, grammar, recursive-descent parser,
  printer and evaluator (`FraudTokens` to `FraudInterpreter`, `FraudValues` for what
  literals are worth);
* **keyset pagination** of the ledger history (`LedgerHistory`);
* the **exchange-rate proxy**, the **command history**, the **detailed statement**
  and its **CSV** form, **loan instalments** and the **loan workflow**, the
  **notification consumer**, **interest and tax**, and **reference numbers**.

How to read it. `Ledger.Step(book, op)` is one operation run alone: a new book
with its events, or a refusal. The classes are proved equal to it, method by
method; the lemmas then speak about `Step` and about runs of it. A run is a list
of requests (`LedgerRuns.Request`): ledger operations, status changes and newly
opened accounts. A run is legal when references are fresh (backed by
`References.ReferencesAreFresh`) and the database answers a reversal's query with
all entries of the original, in any order. The interleaved model splits an
operation into the steps at which others may come between: check, find, one step
per lock, reading today's withdrawals, validation, one step per posting, commit
and publication; commit publishes all writes and releases the locks at once.

An account id is a text (`AccountIds.AccountId`), whose row is the text in lower
case: requests may write a uuid in either case (`transaction.dto.ts`), the database
takes both for one row and shows it in lower case. A transfer keeps the two texts
it was sent, because `ledger.service.ts` compares and sorts them as they are. Two
objects read from one row do not see each other's changes; the second to be saved
wins (`Ledger.TwoCopies`, `Ledger.Posting.missed`).

`dafny verify dfyconfig.toml` checks everything.

## What turned out false

* "Unknown data never triggers a rule" (the comment and the specification beside
  the evaluator say so) fails under NOT (`FraudInterpreter.UnknownDataCanTrigger`)
  and for names every object inherits (`FraudInterpreter.InheritedNameTriggers`);
  `FraudInterpreter.UnknownDataTriggers` says exactly when.
* The print of a rule cannot always be read back: very small and very large
  literals are shown with an exponent, which the tokenizer does not know
  (`FraudRoundTrip.TenMillionthIsLost`). `FraudRoundTrip.PrintParseRoundTrip` says
  exactly when it can.
* "Balances are the sums of their entries" and "a transfer takes exactly its fee"
  fail for a transfer from an account to itself in two spellings, A1.. to a1..:
  lines 87 and 95-96 of `ledger.service.ts` compare texts, so it passes as a
  transfer between two accounts, reads the row into two objects and saves the
  second over the first (`MixedCaseTransfers.MoneyFromNothing`, from an empty bank).
  Exactly when both texts name one row and the one that sorts second is its id
  (`MixedCaseTransfers.CopiesExactly`); the books stay balanced if and only if no
  such transfer is accepted (`LedgerInvariants.StepKeepsBalanced`,
  `LedgerRuns.ReachableIsBalanced`, per account `ReachableIsBalancedOn`, and under
  every schedule `Serialisability.MoneyIsSafe`).
* "The sender pays the receiver" fails for A1.. to b1..: the sender's text sorts
  first and is not the id of its row, so the receiver's row pays itself and the fee
  (`MixedCaseTransfers.ReceiverPays`). The roles are right, and the transfer is the
  one between the ids of the rows, if and only if the text that sorts first is the
  id of its row (`RolesAreExact`, `MeansThePlainTransfer`).
* "Sorted locks cannot deadlock" fails for B1.. to a1.. beside a1.. to b1..: the
  texts sort one way and the rows the other (`Deadlocks.CapitalLetterDeadlocks`).
  `Deadlocks.SticksExactly`: a transfer between existing rows can be stuck among
  operations that lock in row order if and only if its texts do not sort as its rows
  do; a text that sorts first and is the id of its row is enough to rule that out
  (`MixedCaseTransfers.CanonicalFirstIsInRowOrder`).
* "A transaction can be undone without a trace" fails for the same transfers on two
  objects of one row (`Reversal.UndoAtOnceRestores`, `Commands.UndoAtOnce`), and its
  statement does not reconcile (`Statement.StatementReconciles`), both exactly then.
  When payer and payee are one row, whether a later reversal goes through can depend
  on the order in which the database returns the entries (`Reversal.OrderMatters`,
  `Reversal.ReverseMeans`).
* A transaction can be reversed twice when two reversals overlap, because the
  check comes before the locks: `OverlappingReversals.OverlappingReversalsBothCommit`,
  from an empty bank in `OverlappingReversals.DoubleReversalIsReachable`.
  `Serialisability.Serialisable` gives the exact condition for every schedule: it is
  serial in commit order if and only if no reversal commits while its original is
  marked. `ReversalRaces.StaleCommits` says when that happens: exactly when an
  operation that writes the mark commits between the reversal's check and its
  commit. Two reversals of one transaction both commit only if the later one has
  checked before the earlier one committed (`ReversalRaces.TwoReversalsOverlap`).
* "A closed account is empty" fails after a reversal, which looks at no status:
  `LedgerRuns.ClosedAccountRefilled`; `LedgerRuns.ReversalMayFillClosedAccounts`
  says exactly when.
* A description that imitates the reversal mark blocks a reversal nobody has
  made: `LedgerRuns.ImitatedMarkBlocksReversal`; `LedgerRuns.MarkedExactly` says
  which requests mark a transaction.
* A full-history statement need not open at zero when two operations share an
  instant: `Statement.SharedInstantsBreakTheOpening`; `Statement.OpensAtZeroExactly`
  says exactly when it does, however ties are broken.
* The CSV round trip loses rows without cells: `Csv.CsvRoundTrip`.
* The notification table depends on delivery order when two messages share an
  event id: `Consumer.SharedIdsDependOnOrder`; `Consumer.ConfluentExactly` says that
  this is the only way.

## Model

| member | source | states |
|---|---|---|
| `AccountState.TrajectoriesRespectTheDiagram` | src/modules/accounts/domain/account-state.ts:24-78 | over any run of actions that all succeed: the run did not start in CLOSED, nobody returns to PENDING, and a run that ends in CLOSED ends with close on an empty account |
| `AccountState.DiagramIsExactly` | src/modules/accounts/domain/account-state.ts:24-78 | the legal moves are activate from pending, freeze from active, unfreeze from frozen, and close from any open state on an empty balance, and no other |
| `ValidationChain.FirstObjectionIsTheEarliest` | src/modules/transactions/validation/transaction-validation.chain.ts:37-40 | a chain lets through exactly what every handler accepts; what it throws is the objection of the earliest handler that has one |
| `ValidationChain.ValidMeans` | src/modules/transactions/validation/transaction-validation.chain.ts:45-87 | the default chain accepts exactly a positive amount, an open account for a deposit, and for a withdrawal an active account whose balance and remaining daily limit cover the amount |
| `ValidationChain.ObjectionsInOrder` | src/modules/transactions/validation/transaction-validation.chain.ts:45-87 | which reason the default chain gives: amount, status, funds, daily limit, the first of them that is broken |
| `ValidationChain.ValidationHandler.SetNext` | src/modules/transactions/validation/transaction-validation.chain.ts:32-35 | links the handler behind this one and returns it |
| `ValidationChain.ValidationHandler.Run` | src/modules/transactions/validation/transaction-validation.chain.ts:37-40 | walking the linked objects gives the first objection along the list of their checks |
| `ValidationChain.BuildTransactionValidationChain` | src/modules/transactions/validation/transaction-validation.chain.ts:83-87 | builds four fresh linked handlers whose checks are the default ones in order |
| `DomainEvents.ValidEventsAreKeyedByAnAccount` | src/modules/messaging/domain-events.ts:44-59 | an event whose payload fits its schema always has an account as partition key, so the fallback to the event id is never used |
| `DomainEvents.SchemaMeansTheContract` | src/modules/messaging/domain-events.ts:47-59 | for all eight event types, key by key: a payload fits its schema if and only if it has exactly the declared keys, uuids, non-empty texts, a three-letter currency, positive amounts and non-negative fees and deposits |
| `DomainEvents.MoneyMovesOnOneTopic` | src/modules/messaging/domain-events.ts:8-38 | deposits, withdrawals, transfers and reversals are all announced on one topic |
| `DomainEvents.OtherTopics` | src/modules/messaging/domain-events.ts:37-38 | account, loan and customer events have one topic each |
| `DomainEvents.NoEventIsADeadLetter` | src/modules/messaging/domain-events.ts:38-41 | no event type's topic is the dead-letter topic, so the consumer of all event topics never reads its own dead letters |
| `AccountIds.RowSortsLast` | src/modules/transactions/dto/transaction.dto.ts:21-28 | the lower-case spelling of an id, which is its row's, sorts after every other spelling |
| `AccountIds.SmallerSpellingIsNotCanonical` | src/modules/transactions/ledger.service.ts:92 | of two spellings of one row the one that sorts first is never the row's id |
| `AccountIds.CanonicalKeepsTheOrder` | src/modules/transactions/ledger.service.ts:92 | a text that is its row's id and sorts first names the row that sorts first |
| `Ledger.InsertSorts` | src/modules/transactions/ledger.service.ts:135 | inserting an account id keeps the list strictly increasing and adds exactly that id |
| `Ledger.SortedAccountsSorts` | src/modules/transactions/ledger.service.ts:135 | the accounts a reversal locks are exactly those of the entries, each once, in increasing order |
| `Ledger.LocksAreOrdered` | src/modules/transactions/ledger.service.ts:91-94 | an operation locks each row once, and in increasing order of the rows if and only if it is no transfer, or one whose texts sort as the rows they name |
| `Ledger.LockAllYields` | src/modules/transactions/ledger.service.ts:162-166 | locking succeeds exactly when every account exists, and then yields exactly those rows as they stand in the table |
| `Ledger.PostAllKeepsRows` | src/modules/transactions/ledger.service.ts:168-187 | posting changes balances only, and appends one entry per posting, in order, under the one reference and time |
| `LedgerInvariants.StepWrites` | src/modules/transactions/ledger.service.ts:86-187 | a committed operation appends exactly the postings it decided on |
| `LedgerInvariants.StepKeepsSolvent` | src/modules/transactions/ledger.service.ts:168-187 | every operation keeps: no balance below zero, every entry on an account of the bank |
| `LedgerInvariants.StepDrifts` | src/modules/transactions/ledger.service.ts:86-108 | an operation moves a balance by what it enters, except that a transfer on two objects read from one row adds amount and fee on top |
| `LedgerInvariants.StepKeepsBalancedOn` | src/modules/transactions/ledger.service.ts:168-187 | an operation keeps an account's balance the sum of its entries and every recorded balance a prefix sum if and only if it is not a transfer on two objects read from that row |
| `LedgerInvariants.StepKeepsBalanced` | src/modules/transactions/ledger.service.ts:168-187 | the books of all accounts stay balanced if and only if the operation is not a transfer on two objects read from one row |
| `LedgerInvariants.StepKeepsShown` | src/modules/transactions/ledger.service.ts:168-187 | every operation keeps: an account's balance is the one its latest entry recorded |
| `LedgerInvariants.StepFrame` | src/modules/transactions/ledger.service.ts:65-160 | no account appears or vanishes, only balances of locked accounts change, history is only appended to, and new entries carry the operation's reference, time and locked accounts |
| `LedgerInvariants.DepositMeans` | src/modules/transactions/ledger.service.ts:65-73 | a deposit commits if and only if the account exists, is not closed and the amount is positive; the whole new table |
| `LedgerInvariants.WithdrawMeans` | src/modules/transactions/ledger.service.ts:75-84 | a withdrawal commits if and only if the account is active and balance and remaining limit cover a positive amount; the whole new table |
| `LedgerInvariants.SumForConcat` | src/modules/transactions/ledger.service.ts:176-186 | sums of entries add up over concatenation |
| `LedgerTransfer.TransferMeans` | src/modules/transactions/ledger.service.ts:86-110 | for any two texts, a transfer commits if and only if it is allowed (texts differ, both rows exist, one currency, fee included in balance and limit check, status of both sides); the whole new table, with the roles the comparison of texts gives and the fee line between the legs |
| `LedgerTransfer.TransferDecision` | src/modules/transactions/ledger.service.ts:96-103 | validation of both sides agrees with the allowed-condition |
| `LedgerTransfer.TotalsAgree` | src/modules/transactions/ledger.service.ts:168-187 | in balanced books all balances together are all entries together |
| `LedgerTransfer.StepConserves` | src/modules/transactions/ledger.service.ts:86-160 | every operation moves the bank's total by its net flow: a deposit adds its amount, a withdrawal takes it, a reversal takes back what the original entered, a transfer takes exactly its fee, but adds its amount when it works on two objects read from one row |
| `LedgerService.Transaction.LockAccount` | src/modules/transactions/ledger.service.ts:162-166 | a new object for the row as the transaction sees it, and the row locked, or the account reported missing |
| `LedgerService.Transaction.LockAccounts` | src/modules/transactions/ledger.service.ts:135-137 | the loop over sorted ids equals locking them all, failing at the first missing one, with one object for each row |
| `LedgerService.Transaction.Post` | src/modules/transactions/ledger.service.ts:168-187 | the object's balance moves and is saved over the row with one entry, whatever the row has become since the object was read; nothing is saved when the balance would fall below zero |
| `LedgerService.Transaction.PostLegs` | src/modules/transactions/ledger.service.ts:106-108 | the legs of a transfer in order equal posting the specified list, for one object, two objects of one row, or two rows |
| `LedgerService.Transaction.PostOpposites` | src/modules/transactions/ledger.service.ts:139-145 | the loop over the original entries equals posting their negations in that order, stopping at the first account that cannot bear it |
| `LedgerService.SingleOutcome` | src/modules/transactions/ledger.service.ts:65-84 | every outcome of a deposit or withdrawal, objection by objection, with its event |
| `LedgerService.TransferLocked` | src/modules/transactions/ledger.service.ts:91-94 | the row of the text that sorts first is looked for first, and then the other |
| `LedgerService.RolesFound` | src/modules/transactions/ledger.service.ts:92-96 | payer and payee are the rows found by comparing the id of the first row with both texts, and are two objects of one row when exactly one comparison hits |
| `LedgerService.OutcomeOfWork` | src/modules/transactions/ledger.service.ts:98-123 | with the locks held an operation is refused as its decision or a posting is, or commits and announces all of it |
| `LedgerService.LedgerService.TransferInside` | src/modules/transactions/ledger.service.ts:90-111 | the database transaction of a transfer, with texts sorted and compared as sent and one object for each lock, does the specified step, and reports the balances its objects show |
| `LedgerService.LedgerService.Deposit` | src/modules/transactions/ledger.service.ts:65-73 | table, result and published events are those of the specified step on the row the text names |
| `LedgerService.LedgerService.Withdraw` | src/modules/transactions/ledger.service.ts:75-84 | table, result and published events are those of the specified step on the row the text names; DailyLimit.WithdrawalOfTheDay and Refusals.WithdrawalReason say when that step goes through |
| `LedgerService.LedgerService.Transfer` | src/modules/transactions/ledger.service.ts:86-123 | for any two texts: table, result and published events are those of the specified step |
| `LedgerService.LedgerService.Reverse` | src/modules/transactions/ledger.service.ts:126-160 | table, result and published events are those of the specified step; a refusal part-way leaves no trace |
| `LedgerService.LedgerService.Commit` | src/modules/transactions/ledger.service.ts:47-49 | commit makes all writes of the transaction visible and then publishes |
| `LedgerEvents.CommittedEventsAreValid` | src/modules/transactions/ledger.service.ts:71-122 | every event a committed operation publishes fits its schema, carries its reference and is keyed by a text of a row the operation had locked: the row's id, or for a transfer the sender's text as it was sent |
| `LedgerEvents.AnnouncedBalanceIsTheBalance` | src/modules/transactions/ledger.service.ts:71-83 | the balance announced by a deposit or withdrawal is the one the table then shows |
| `LedgerEvents.MovementIsAnnounced` | src/modules/transactions/ledger.service.ts:66-84 | the event of a deposit or withdrawal names the account whose balance moved, is deposited or withdrawn by the direction, and carries the amount by which it moved |
| `LedgerEvents.TransferIsAnnounced` | src/modules/transactions/ledger.service.ts:113-121 | the event of a transfer carries both texts as sent, what the payee gained, and as fee what the payer lost beyond that |
| `LedgerEvents.ReversalIsAnnounced` | src/modules/transactions/ledger.service.ts:150-159 | a reversal announces each entry it wrote, in order: account, signed amount, reference and the reference it cancels |
| `MixedCaseTransfers.RolesAreExact` | src/modules/transactions/ledger.service.ts:92-96 | for different texts: the sender's row pays and the receiver's row, another one, is paid, if and only if the text that sorts first is the id of its row |
| `MixedCaseTransfers.OneRowPaysItself` | src/modules/transactions/ledger.service.ts:92-96 | otherwise, and only then, payer and payee are one row, that of the text that sorts second |
| `MixedCaseTransfers.CopiesExactly` | src/modules/transactions/ledger.service.ts:87-96 | for different texts: payer and payee are two objects read from one row if and only if both texts name it and the one that sorts second is its id |
| `MixedCaseTransfers.CanonicalFirstIsInRowOrder` | src/modules/transactions/ledger.service.ts:92-94 | when the text that sorts first is the id of its row, the rows are locked in their order |
| `MixedCaseTransfers.MeansThePlainTransfer` | src/modules/transactions/ledger.service.ts:86-108 | a committed transfer leaves the table as the transfer between the ids of the rows would if and only if the text that sorts first is the id of its row |
| `MixedCaseTransfers.MoneyFromNothing` | src/modules/transactions/ledger.service.ts:87-108 | A1.. to a1..: after a deposit of amount and fee in an empty bank the account holds the amount on top, its entries say the fee was paid, and the books are not balanced |
| `MixedCaseTransfers.ReceiverPays` | src/modules/transactions/ledger.service.ts:92-108 | A1.. to b1..: the sender keeps its money and the receiver pays the fee |
| `Reversal.SumForPermutes` | src/modules/transactions/ledger.service.ts:132 | what a set of entries does to an account does not depend on their order |
| `Reversal.PostAllInOrder` | src/modules/transactions/ledger.service.ts:139-145 | posting goes through if and only if every account can bear each posting where it comes, and moves each by its total |
| `Reversal.PostAllBySums` | src/modules/transactions/ledger.service.ts:139-145 | when the signs on each account agree, posting goes through if and only if every account can bear its total |
| `Reversal.ReverseMeans` | src/modules/transactions/ledger.service.ts:126-147 | a reversal commits if and only if the transaction exists, is not marked, and its entries can be taken back in the order the database returned them, and then moves every account by minus what the original did; when the signs on each account agree that order does not matter |
| `Reversal.OrderMatters` | src/modules/transactions/ledger.service.ts:132-145 | a debit and a credit of one amount on a row that holds less can be taken back in the order they were written but not in the other |
| `Reversal.FoundIsReal` | src/modules/transactions/ledger.service.ts:132-133 | what the query returns are entries of that reference on existing accounts, with agreeing signs when the ledger has them |
| `Reversal.StepKeepsCoherent` | src/modules/transactions/ledger.service.ts:87 | given a fresh reference, an operation keeps the entries of each reference on each account of one sign and none zero if and only if it is not a transfer whose payer and payee are one row |
| `Reversal.OwnEntries` | src/modules/transactions/ledger.service.ts:87 | a fresh reference collects exactly the entries its operation wrote, and no other reference changes |
| `Reversal.OwnEffect` | src/modules/transactions/ledger.service.ts:168-187 | what a new reference entered on an account, and what drifted in, is the change of its balance |
| `Reversal.OwnEntriesAreBearable` | src/modules/transactions/ledger.service.ts:139-145 | the entries of the latest operation can be taken back in every order, unless it reversed a transfer whose payer and payee were one row |
| `Reversal.UndoAtOnceRestores` | src/modules/transactions/ledger.service.ts:126-147 | reversing a committed operation at once succeeds if and only if no text marks it and its entries can be taken back in the order found, and restores every row, fee included, if and only if it was not a transfer on two objects read from one row |
| `Reversal.SomethingWasWritten` | src/modules/transactions/ledger.service.ts:126-147 | a committed operation writes at least one entry |
| `DailyLimit.QueryCoversTheDay` | src/modules/transactions/ledger.service.ts:189-197 | in days of 86,400,000 milliseconds: the sum the service compares with the limit is never below what the day of the clock already carries, and equals it if and only if the account has no withdrawal or outgoing transfer of a later day |
| `DailyLimit.QueryIsTheDay` | src/modules/transactions/ledger.service.ts:189-197 | without entries of later days that sum is the total of the day, whatever the entries |
| `DailyLimit.WithdrawalOfTheDay` | src/modules/transactions/ledger.service.ts:75-84 | with no entry of a later day, a withdrawal from an active account within its balance commits if and only if the day total and the amount stay within the limit, and is refused for the limit otherwise |
| `DailyLimit.TransferOfTheDay` | src/modules/transactions/ledger.service.ts:86-111 | the same for a transfer from an active to an open account of one currency, with the fee included |
| `DailyLimit.StepCharges` | src/modules/transactions/ledger.service.ts:189-197 | an operation charges its amount, never its fee, to the day it runs on, and no other day |
| `DailyLimit.StepKeepsLimits` | src/modules/transactions/validation/transaction-validation.chain.ts:72-80 | no operation takes the withdrawals and outgoing transfers of any day of 86,400,000 milliseconds over the limit of the account |
| `DailyLimit.NoLimitNoWithdrawal` | src/modules/transactions/validation/transaction-validation.chain.ts:72-80 | an account whose day totals are never positive has no withdrawal and no outgoing transfer |
| `Refusals.DepositReason` | src/modules/transactions/ledger.service.ts:65-73 | a deposit is refused for a missing row, an amount that is not positive or a closed account, in this order, and otherwise commits |
| `Refusals.WithdrawalReason` | src/modules/transactions/ledger.service.ts:75-84 | a withdrawal is refused for a missing row, the amount, the status, the funds or the daily limit, in this order, and otherwise commits |
| `Refusals.TransferReason` | src/modules/transactions/ledger.service.ts:86-111 | a transfer is refused for equal texts, the missing row that is locked first, the currencies, the payer's side with the fee, then the payee's side, in this order, and otherwise commits |
| `Refusals.ReversalReason` | src/modules/transactions/ledger.service.ts:126-147 | a reversal is refused as already reversed if any entry carries its mark, as unknown if no entry has the reference, and otherwise only at the first entry whose taking back would leave its account below zero, naming that account |
| `LedgerRuns.AdminKeepsBalanced` | src/modules/accounts/accounts.service.ts:30-82 | opening accounts and changing statuses keep the books balanced and write no entry |
| `LedgerRuns.AdminMeans` | src/modules/accounts/accounts.service.ts:30-82 | a new account starts pending with balance zero, a status changes along the diagram only, and no other account changes |
| `LedgerRuns.ReachableIsSolvent` | src/modules/transactions/ledger.service.ts:168-187 | in every reachable state no balance is below zero and every entry is on an account of the bank |
| `LedgerRuns.RunDrifts` | src/modules/transactions/ledger.service.ts:86-187 | over every run a balance is the sum of its entries plus amount and fee of every accepted transfer on two objects read from that row |
| `LedgerRuns.ReachableIsBalancedOn` | src/modules/transactions/ledger.service.ts:65-187 | in every reachable state an account's balance is the sum of its entries, and every recorded balance a prefix sum, if and only if no accepted transfer worked on two objects read from its row |
| `LedgerRuns.ReachableIsBalanced` | src/modules/transactions/ledger.service.ts:65-187 | in every reachable state all books are balanced if and only if no accepted transfer worked on two objects read from one row |
| `LedgerRuns.ReachableIsCoherent` | src/modules/transactions/ledger.service.ts:86-108 | in every reachable state the entries of each reference agree in sign on every account if and only if no accepted transfer paid the row it took the money from |
| `LedgerRuns.LatestPostingShowsTheBalance` | src/modules/transactions/ledger.service.ts:176-186 | in every reachable state an account's balance is the balanceAfter of its latest entry |
| `LedgerRuns.HistoryOnlyGrows` | src/modules/transactions/ledger.service.ts:125 | later books extend earlier ones: history is never edited |
| `LedgerRuns.DailyLimitHolds` | src/modules/transactions/ledger.service.ts:189-197 | over every run, for every account and every day of 86,400,000 milliseconds, withdrawals plus outgoing transfers stay within the limit; with a limit of zero there are none, whatever order the clock readings come in |
| `LedgerRuns.ReversedAtMostOnce` | src/modules/transactions/ledger.service.ts:126-147 | over every serial run, reversals of reversals included, no reference is reversed twice |
| `LedgerRuns.PastReferencesAreFixed` | src/modules/transactions/ledger.service.ts:132 | the entries of a reference never change after it was used |
| `LedgerRuns.ReversalCancels` | src/modules/transactions/ledger.service.ts:139-145 | a transaction and its reversal together have no net effect on any account, then and at every later time |
| `LedgerRuns.MarkAfter` | src/modules/transactions/ledger.service.ts:129-130 | after an operation a reference is marked if and only if it was before or the operation writes the mark, as its reversal or by its text |
| `LedgerRuns.MarkedExactly` | src/modules/transactions/ledger.service.ts:129-130 | over every run a reference is marked if and only if some accepted operation of the run wrote its mark |
| `LedgerRuns.MarkedMeansReversed` | src/modules/transactions/ledger.service.ts:129-130 | so, when no text in the run imitates its mark, a reference is marked if and only if it was reversed |
| `LedgerRuns.OthersLeaveNoMark` | src/modules/transactions/ledger.service.ts:129-130 | only an operation that writes the mark of a reference can make it look reversed |
| `LedgerRuns.ImitatedMarkBlocksReversal` | src/modules/transactions/ledger.service.ts:129-130 | a deposit whose description imitates the mark of its own reference can never be reversed although nobody reversed it |
| `LedgerRuns.ClosedStaysEmpty` | src/modules/accounts/domain/account-state.ts:66-69 | in a run without reversals every closed account has balance zero |
| `LedgerRuns.ReversalMayFillClosedAccounts` | src/modules/transactions/ledger.service.ts:139-145 | a reversal keeps closed accounts empty if and only if the original put nothing on one; when its entries agree in sign, if and only if none of them is on one |
| `LedgerRuns.ClosedAccountRefilled` | src/modules/transactions/ledger.service.ts:126-147 | withdraw everything, close, reverse the withdrawal: the account is left closed with the whole amount on it |
| `Concurrency.HeldByOne` | src/modules/transactions/ledger.service.ts:162-166 | no two transactions hold the same row |
| `Concurrency.WorkIsDone` | src/modules/transactions/ledger.service.ts:65-147 | a transaction that has written all its postings has done exactly the serial work on the rows as they now stand in the table |
| `Concurrency.StepKeepsOrderly` | src/modules/transactions/ledger.service.ts:41-54 | every interleaved step keeps: locks match what each transaction holds, locked rows and day totals read are still current |
| `Serialisability.MoneyIsSafe` | src/modules/transactions/ledger.service.ts:41-54 | under every schedule, overlapping reversals included, no balance is below zero; balances are sums of entries, and total balances equal total entries, if and only if no committed transfer worked on two objects read from one row; each account is ahead of its entries by amount and fee of those on its row |
| `Serialisability.RunsAreSteady` | src/modules/transactions/ledger.service.ts:41-54 | in every schedule locks and reads stay consistent and a reversal past its query still knows all entries of its original |
| `Serialisability.CommitIsStep` | src/modules/transactions/ledger.service.ts:65-147 | a commit, of a reversal only while its original is unmarked, is the serial operation on the tables of that moment |
| `Serialisability.AbortsAreJustified` | src/modules/transactions/ledger.service.ts:65-147 | whatever aborts a transaction, in any schedule, the serial operation at that moment would have been refused too: for the same reason, or because of a mark that has appeared since the check |
| `Serialisability.Serialisable` | src/modules/transactions/ledger.service.ts:65-147 | for every schedule of any number of transactions: tables and log are those of the committed operations run one by one in commit order, each accepted there, if and only if no reversal commits while its original is marked; then what was published is what the serial steps announce |
| `Serialisability.UncommittedLeavesNoTrace` | src/modules/transactions/ledger.service.ts:41-54 | in every schedule a transaction that has not committed, or was refused, has left no entry and announced nothing |
| `Serialisability.WithoutReversalsCareful` | src/modules/transactions/ledger.service.ts:65-123 | without reversals the condition always holds, so every interleaving of deposits, withdrawals and transfers is serialisable |
| `Serialisability.CarefulReversesAtMostOnce` | src/modules/transactions/ledger.service.ts:126-147 | under the condition concurrent reversals too reverse each transaction at most once |
| `ReversalRaces.CommitMarks` | src/modules/transactions/ledger.service.ts:126-147 | in every schedule a commit marks a reference if and only if it was marked or the committed operation writes the mark |
| `ReversalRaces.MarkAppears` | src/modules/transactions/ledger.service.ts:129-130 | between two moments of a schedule a mark appears if and only if an operation that writes it commits |
| `ReversalRaces.CheckedBefore` | src/modules/transactions/ledger.service.ts:129-130 | a reversal past its check stood at that check before, and its original was unmarked then |
| `ReversalRaces.StaleCommits` | src/modules/transactions/ledger.service.ts:129-147 | a reversal commits while its original is marked if and only if an operation that writes the mark has committed between its check and its commit |
| `ReversalRaces.TwoReversalsOverlap` | src/modules/transactions/ledger.service.ts:129-147 | two reversals of one transaction both commit only if the later one has checked before the earlier one committed |
| `OverlappingReversals.UnopposedCommits` | src/modules/transactions/ledger.service.ts:129-147 | a reversal that has passed its check commits whatever happens to the mark afterwards |
| `OverlappingReversals.OverlappingReversalsBothCommit` | src/modules/transactions/ledger.service.ts:129-137 | two reversals that both check before either commits both commit, for every single-entry transaction the account can bear twice |
| `Liveness.SomeoneCanStep` | src/modules/transactions/ledger.service.ts:91-94 | deadlock freedom when the texts of all transfers sort as their rows do: while any transaction is unfinished, some transaction can step |
| `Liveness.ProgressDescends` | src/modules/transactions/ledger.service.ts:91-94 | every step of a begun transaction lowers a pair of natural numbers |
| `Liveness.EveryScheduleEnds` | src/modules/transactions/ledger.service.ts:135-137 | no infinite schedule of begun transactions exists |
| `Liveness.AtRestEverybodyIsDone` | src/modules/transactions/ledger.service.ts:41-54 | when the texts of all transfers sort as their rows do, where no step is possible every transaction has finished or aborted and no lock is held |
| `Deadlocks.RowOrderNeverSticks` | src/modules/transactions/ledger.service.ts:91-94 | no schedule whose transfers all have texts that sort as their rows do ever gets stuck |
| `Deadlocks.OutOfOrderSticks` | src/modules/transactions/ledger.service.ts:91-94 | every transfer between existing rows whose texts do not sort as its rows do gets stuck with the opposite transfer between the ids of the rows |
| `Deadlocks.SticksExactly` | src/modules/transactions/ledger.service.ts:91-94 | so a transfer between existing rows can be stuck, among operations that lock in row order, if and only if its texts do not sort as its rows do |
| `Deadlocks.CapitalLetterDeadlocks` | src/modules/transactions/ledger.service.ts:91-94 | B1.. to a1.. beside a1.. to b1.. wait for each other for ever |
| `OverlappingReversals.DoubleReversalIsReachable` | src/modules/transactions/ledger.service.ts:129-147 | two deposits from an empty bank lead to such a state: the first of them can then be reversed twice |
| `FraudTokens.Tokenize` | src/modules/fraud/fraud-rule.interpreter.ts:86-109 | the index loop gives the tokens of the recursive definition, or fails with it |
| `FraudTokens.LexIsWellspelt` | src/modules/fraud/fraud-rule.interpreter.ts:86-109 | every token's text has the shape its kind promises, and no identifier is a reserved word |
| `FraudTokens.LexemeIsTheLongest` | src/modules/fraud/fraud-rule.interpreter.ts:87 | at the front of a text the tokenizer takes the longest operator, parenthesis, quoted text, number or word, and nothing if and only if there is none |
| `FraudTokens.LexReadsTheText` | src/modules/fraud/fraud-rule.interpreter.ts:86-109 | a text is accepted if and only if it is read to its end as longest lexemes with white space between them, each becoming one token as written; it is rejected exactly where no lexeme starts |
| `FraudNumbers.NumberRoundTrip` | src/modules/fraud/fraud-rule.interpreter.ts:57-59 | every exact decimal in lowest terms, written without an exponent, reads back as that decimal |
| `FraudValues.LiteralValue` | src/modules/fraud/fraud-rule.interpreter.ts:163 | a literal is worth its digits divided by ten for each digit behind the point, negated by a minus sign, trailing zeros included |
| `FraudValues.PlainIsBySize` | src/modules/fraud/fraud-rule.interpreter.ts:57-59 | a number is shown without an exponent if and only if it is zero or its size is at least a millionth and below 10^21 |
| `FraudParser.ParseOr` | src/modules/fraud/fraud-rule.interpreter.ts:124-131 | what it accepts is derived by the grammar, with the consumed tokens as yield and the rest unconsumed |
| `FraudParser.ParseAnd` | src/modules/fraud/fraud-rule.interpreter.ts:133-140 | the same one level down |
| `FraudParser.ParseNot` | src/modules/fraud/fraud-rule.interpreter.ts:142-148 | the same for NOT |
| `FraudParser.ParsePrimary` | src/modules/fraud/fraud-rule.interpreter.ts:150-168 | the same for parentheses and comparisons |
| `FraudParser.OrComplete` | src/modules/fraud/fraud-rule.interpreter.ts:15-23 | every derivation followed by a token that cannot continue it is found by the parser |
| `FraudParser.ParserDecidesTheGrammar` | src/modules/fraud/fraud-rule.interpreter.ts:111-168 | the parser returns a tree for a token list if and only if the written grammar derives the list with that tree |
| `FraudParser.Unambiguous` | src/modules/fraud/fraud-rule.interpreter.ts:15-23 | a token list has at most one derivation |
| `FraudParser.AndBindsTighter` | src/modules/fraud/fraud-rule.interpreter.ts:17-18 | a OR b AND c is a OR (b AND c) |
| `FraudParser.GroupsToTheLeft` | src/modules/fraud/fraud-rule.interpreter.ts:124-140 | chains of OR and chains of AND group to the left |
| `FraudParser.FraudRuleParser.Parse` | src/modules/fraud/fraud-rule.interpreter.ts:115-122 | the object with its position gives the specified result for every source text |
| `FraudParser.FraudRuleParser.ParseOrExpr` | src/modules/fraud/fraud-rule.interpreter.ts:124-131 | the loop builds the tree of the derivation and stops where the specification stops |
| `FraudParser.FraudRuleParser.ParseAndExpr` | src/modules/fraud/fraud-rule.interpreter.ts:133-140 | the same for AND |
| `FraudParser.FraudRuleParser.ParseNotExpr` | src/modules/fraud/fraud-rule.interpreter.ts:142-148 | the same for NOT |
| `FraudParser.FraudRuleParser.ParsePrimaryExpr` | src/modules/fraud/fraud-rule.interpreter.ts:150-168 | the same for parentheses and comparisons, errors included |
| `FraudParser.FraudRuleParser.Advance` | src/modules/fraud/fraud-rule.interpreter.ts:171 | the next token, or none at the end, with the position moved on |
| `FraudParser.FraudRuleParser.Expect` | src/modules/fraud/fraud-rule.interpreter.ts:172-176 | the next token if it has the expected kind, an error otherwise |
| `FraudPrinter.ParsedIsBuildable` | src/modules/fraud/fraud-rule.interpreter.ts:111-168 | every tree the parser returns has literals and names of the shapes the printer relies on |
| `FraudPrinter.DerivationStandsFor` | src/modules/fraud/fraud-rule.interpreter.ts:57-78 | every such tree has a derivation in the grammar |
| `FraudPrinter.LexPrint` | src/modules/fraud/fraud-rule.interpreter.ts:57-78 | tokenizing a print that shows no exponent gives exactly the tokens of that derivation, character by character |
| `FraudRoundTrip.ExponentBreaks` | src/modules/fraud/fraud-rule.interpreter.ts:57-59 | a number shown with an exponent reads as a number and an identifier, which no derivation has, or does not tokenize |
| `FraudRoundTrip.OrIsClashFree` | src/modules/fraud/fraud-rule.interpreter.ts:15-23 | no derivation of the grammar has a number directly before an identifier |
| `FraudRoundTrip.PrintBreaks` | src/modules/fraud/fraud-rule.interpreter.ts:57-78 | one literal in the range of exponents breaks the whole print |
| `FraudRoundTrip.PrintParseRoundTrip` | src/modules/fraud/fraud-rule.interpreter.ts:57-78 | a tree the parser can build reads back from its print as that tree if every non-zero literal has a size from 1e-6 to below 1e21, and its print is rejected otherwise |
| `FraudRoundTrip.PrintIsFaithful` | src/modules/fraud/fraud-rule.interpreter.ts:57-78 | no other tree prints like one whose print shows no exponent |
| `FraudRoundTrip.ExponentsAreLost` | src/modules/fraud/fraud-rule.interpreter.ts:57-59 | every decimal can be written in a rule; in the range of exponents the rule parses and its print does not |
| `FraudRoundTrip.TenMillionthIsLost` | src/modules/fraud/fraud-rule.interpreter.ts:57-59 | amount > 0.0000001 parses, its literal is shown as 1e-7, and the print is rejected |
| `FraudInterpreter.PrintKeepsMeaning` | src/modules/fraud/fraud-rule.interpreter.ts:44-78 | the print of a rule parses if and only if it shows no exponent, and then has the rule's truth value in every context |
| `FraudInterpreter.UnknownDataTriggers` | src/modules/fraud/fraud-rule.interpreter.ts:44-55 | a rule none of whose variables is known triggers exactly when it would with every comparison false, save that names every object inherits differ from everything; without NOT and without such a name under != it never does |
| `FraudInterpreter.InheritedNameTriggers` | src/modules/fraud/fraud-rule.interpreter.ts:45-49 | constructor != 'x' triggers on no data at all, without NOT |
| `FraudInterpreter.UnknownDataCanTrigger` | src/modules/fraud/fraud-rule.interpreter.ts:46 | a rule with NOT that triggers on no data at all |
| `FraudInterpreter.OrdersCompareSizes` | src/modules/fraud/fraud-rule.interpreter.ts:50-53 | between known values the four orders hold exactly as between the real numbers they stand for: numbers as mantissa over a power of ten, truth values as 1 and 0, texts as they convert |
| `FraudInterpreter.EqualityComparesValues` | src/modules/fraud/fraud-rule.interpreter.ts:48-49 | known data equals a literal if and only if both are numbers of one real value, or one text, or one truth value; != is the opposite |
| `FraudInterpreter.NoNumberNoOrder` | src/modules/fraud/fraud-rule.interpreter.ts:50-53 | a text that is no number stands in none of the four orders |
| `FraudInterpreter.LargeAmountTriggers` | src/modules/fraud/fraud-rule.interpreter.ts:44-55 | amount > 5000000 parses, triggers on 7000000 and does not on 5000000 |
| `FraudInterpreter.NotGreaterIsLessOrEqual` | src/modules/fraud/fraud-rule.interpreter.ts:44-55 | NOT x > v agrees with x <= v if and only if x is known and both sides are numbers |
| `LedgerHistory.ScanIsSorted` | src/modules/transactions/ledger-history.iterator.ts:67-79 | the query result is strictly ascending and contains exactly the rows in range past the cursor |
| `LedgerHistory.ScanReadsTheRange` | src/modules/transactions/ledger-history.iterator.ts:67-79 | in plain words: the account's rows from `from` up to but not including `to`, beyond the cursor, by time and then by id |
| `LedgerHistory.LedgerHistoryIterator.NextRow` | src/modules/transactions/ledger-history.iterator.ts:42-46 | buffer, cursor, flags and result are those of the specified step |
| `LedgerHistory.LedgerHistoryIterator.LoadNextPage` | src/modules/transactions/ledger-history.iterator.ts:52-60 | one page is fetched and the cursor moves to its last row |
| `LedgerHistory.IteratorInvariant` | src/modules/transactions/ledger-history.iterator.ts:42-61 | over every growing table the rows handed out ascend, are in range, and skip no row in range of the first table |
| `LedgerHistory.PaginationUnderGrowth` | src/modules/transactions/ledger-history.iterator.ts:42-79 | keys come out strictly increasing, and when the iterator is done every in-range row present before the first fetch has come out exactly once, whatever was inserted between fetches |
| `LedgerHistory.SortedIsUnique` | src/modules/transactions/ledger-history.iterator.ts:71-72 | two ascending lists with the same rows are equal |
| `LedgerHistory.FixedTableAgreesWithScan` | src/modules/transactions/ledger-history.iterator.ts:42-79 | on a fixed table the output is the sorted filtered scan and takes floor(n / pageSize) + 1 fetches |
| `ExchangeRate.CachingExchangeRateProxy.GetRate` | src/modules/fx/exchange-rate.proxy.ts:65-89 | cache, timestamps, counters and reply are those of the specified step, whose replies ExchangeRate.RepliesAreJustified decides from the history |
| `ExchangeRate.CachingExchangeRateProxy.EnforceRateLimit` | src/modules/fx/exchange-rate.proxy.ts:91-96 | the filtered timestamps, and this call's if it is admitted; ExchangeRate.LetThroughExactly says which are |
| `ExchangeRate.LimiterHolds` | src/modules/fx/exchange-rate.proxy.ts:91-96 | for every sequence of attempts and every non-decreasing clock, any 60-second window holds at most the allowed number of provider calls, although old timestamps are dropped |
| `ExchangeRate.LetThroughExactly` | src/modules/fx/exchange-rate.proxy.ts:91-96 | for every non-decreasing clock an attempt is let through if and only if fewer than the allowed number of calls went through in the 60,000 milliseconds before it |
| `ExchangeRate.CacheIsLatest` | src/modules/fx/exchange-rate.proxy.ts:76-79 | the cache holds, for every key, exactly the provider's latest success as told by the replies |
| `ExchangeRate.RepliesFollowTheLimiter` | src/modules/fx/exchange-rate.proxy.ts:65-89 | whatever the clock: fresh cache if and only if the latest success is younger than the time to live, else the provider's answer if the limiter admits the call, else the stale rate, else an error |
| `ExchangeRate.RepliesAreJustified` | src/modules/fx/exchange-rate.proxy.ts:65-96 | for calls in time order, from the history alone: fresh cache if and only if the latest success is younger than the time to live; else the provider's answer, business errors included, if fewer than the allowed number of calls went to it in the 60,000 milliseconds before; else or when it fails the stale rate, else an error |
| `ExchangeRate.AskedMeansProvider` | src/modules/fx/exchange-rate.proxy.ts:69-84 | the calls counted against the limit include each one the provider answered and none that the cache answered |
| `ExchangeRate.EveryCallIsCounted` | src/modules/fx/exchange-rate.proxy.ts:69-84 | hits plus misses are all calls, every miss is one limiter attempt, stale answers are misses |
| `ExchangeRate.ProxyKeepsTheLimit` | src/modules/fx/exchange-rate.proxy.ts:65-96 | the limit holds for every sequential run of the proxy |
| `Commands.CommandInvoker.Remember` | src/modules/transactions/commands/bank.commands.ts:101-107 | the insertion-ordered history with the oldest entry dropped beyond 500 |
| `Commands.CommandInvoker.Execute` | src/modules/transactions/commands/bank.commands.ts:28-50 | the command does what the ledger request it stands for does, or fails with it; a transfer blocked by the fraud rules never reaches the ledger |
| `Commands.DepositCommandDeposits` | src/modules/transactions/commands/bank.commands.ts:28-34 | a deposit command runs if and only if the row exists, is not closed and the amount is positive; it raises that balance by the amount with one deposit entry and is recorded as executed, and otherwise changes no table and is recorded as failed |
| `Commands.WithdrawCommandWithdraws` | src/modules/transactions/commands/bank.commands.ts:36-42 | a withdrawal command runs if and only if the row is active and balance and daily limit cover a positive amount; it lowers that balance by the amount with one withdrawal entry, and otherwise changes no table |
| `Commands.TransferCommandTransfers` | src/modules/transactions/transfer/money-transfer.decorators.ts:85-109 | a transfer command that is not blocked charges the fee, plus 10,000 at a branch and nowhere else, and runs if and only if that transfer is allowed; the payer loses amount and charge, the payee gains the amount; a blocked one changes no table |
| `Commands.CommandInvoker.Run` | src/modules/transactions/commands/bank.commands.ts:71-83 | ledger and history are those of the specified action; it succeeds exactly when the ledger does |
| `Commands.CommandInvoker.Undo` | src/modules/transactions/commands/bank.commands.ts:85-95 | ledger and history are those of the specified action; a failing reversal leaves the record executed |
| `Commands.CommandInvoker.List` | src/modules/transactions/commands/bank.commands.ts:97-99 | the records, newest first |
| `Commands.ActOnHistory` | src/modules/transactions/commands/bank.commands.ts:71-107 | what one run or undo does to every record of the history |
| `Commands.HistoryIsTheLatest` | src/modules/transactions/commands/bank.commands.ts:101-107 | after any sequence of runs and undos the history is exactly the last 500 commands in order |
| `Commands.StatusesMoveForward` | src/modules/transactions/commands/bank.commands.ts:71-95 | between any two moments a record changes at most from executed to undone |
| `Commands.UndoneAtMostOnce` | src/modules/transactions/commands/bank.commands.ts:85-95 | no command is undone twice |
| `Commands.InvokerRefinesTheBank` | src/modules/transactions/commands/bank.commands.ts:28-50 | the bank under the invoker is the bank serving the same requests without it, and legally so |
| `Commands.RunThenUndoRestores` | src/modules/transactions/commands/bank.commands.ts:71-95 | a failed command changes nothing and cannot be undone; a done one is undone if and only if no text imitates its mark, and every row is then restored if and only if it was not a transfer on two objects read from one row |
| `Commands.UndoAtOnce` | src/modules/transactions/commands/bank.commands.ts:71-95 | the same in every reachable state |
| `Commands.UndoneCommandsCancel` | src/modules/transactions/commands/bank.commands.ts:85-95 | a command that was undone, whenever that was, has no net effect on any account for ever |
| `Statement.MovementsMakeTheBalance` | src/modules/statements/statement.bridge.ts:118-138 | for any order of the lines the number of transactions is that of the account's entries, credits are their positive amounts and credits plus debits their sum, so the statement reconciles if and only if it opens at what the balance is ahead of that sum, which is zero in balanced books |
| `Statement.FirstTouchIsSingle` | src/modules/transactions/ledger.service.ts:65-147 | the first operation to touch an account writes one line on it, which records its own amount as the balance |
| `Statement.FirstStaysAlone` | src/modules/transactions/ledger.service.ts:65-147 | in every reachable book an account's first entry shares its reference with no other entry of the account and records its own amount as the balance |
| `Statement.TickingStamps` | src/modules/transactions/ledger.service.ts:176-185 | with increasing operation times, entries are in time order and only entries of one operation share an instant |
| `Statement.FirstLineIsFirstEntry` | src/modules/transactions/ledger-history.iterator.ts:71-72 | then the first line of a full history is the account's first entry, however ties are broken |
| `Statement.StatementReconciles` | src/modules/statements/statement.bridge.ts:118-138 | for every run with increasing timestamps a full-history statement opens at zero, and opening, credits and debits add up to closing if and only if no accepted transfer worked on two objects read from the account's row |
| `Statement.ScannedEntries` | src/modules/transactions/ledger-history.iterator.ts:67-79 | the unbounded query returns every entry of the account once, whatever ids the entries have |
| `Statement.IteratorGivesFullHistory` | src/modules/statements/statements.controller.ts:33-45 | the loop over the history iterator collects a full history: every line once, in time order, for every choice of unique ids and every page size |
| `Statement.StatementOfTheIteratorReconciles` | src/modules/statements/statements.controller.ts:33-53 | the same for the statement built from the iterator's lines, for every run with increasing timestamps |
| `Statement.FirstLineIsEarliest` | src/modules/transactions/ledger-history.iterator.ts:71-72 | every full history starts with an entry of the account that none is older than |
| `Statement.SomeHistoryStartsWith` | src/modules/transactions/ledger-history.iterator.ts:71-72 | and every such entry is the first line of some full history, because random ids break the tie |
| `Statement.OpensAtZeroExactly` | src/modules/statements/statement.bridge.ts:118-138 | on an account whose entries say the truth about its balance (LedgerRuns.ReachableIsBalancedOn says when), every full-history statement opens at zero if and only if the amounts posted to it before each of its earliest-stamped entries add up to zero |
| `Statement.SharedInstantsBreakTheOpening` | src/modules/statements/statement.bridge.ts:122-123 | two deposits in one instant can be read back in the other order, and then the statement opens at the first amount |
| `Csv.ReaderIsComplete` | src/modules/statements/statement.bridge.ts:55-58 | a reader by section 2 of RFC 4180 returns the cells of every file of the grammar, however its fields are quoted |
| `Csv.ReaderIsSound` | src/modules/statements/statement.bridge.ts:55-58 | and accepts nothing else |
| `Csv.QuotedWhereNeeded` | src/modules/statements/statement.bridge.ts:55-58 | a cell is written as it is if and only if it holds no quote, comma or line break |
| `Csv.TableIsSpelled` | src/modules/statements/statement.bridge.ts:55-58 | what the renderer writes is a file of that grammar |
| `Csv.RenderReadsBack` | src/modules/statements/statement.bridge.ts:55-58 | reading the rendered text gives columns and rows for all cell texts, a row without cells coming back as one empty cell |
| `Csv.CsvRoundTrip` | src/modules/statements/statement.bridge.ts:55-58 | the round trip is exact if and only if columns and every row have at least one cell |
| `Amortisation.OwedInClosedForm` | src/modules/loans/domain/loan-approval.mediator.ts:59-62 | what is owed after k payments, in closed form |
| `Amortisation.ExactInstalmentClears` | src/modules/loans/domain/loan-approval.mediator.ts:59-62 | the unrounded instalment, and no other payment, brings the debt to exactly zero after n months |
| `Amortisation.InstalmentIsTheNearest` | src/modules/loans/domain/loan-approval.mediator.ts:59-62 | the instalment is the exact one at a sixtieth a month, to the nearest unit, halves up |
| `Amortisation.OwedFalls` | src/modules/loans/domain/loan-approval.mediator.ts:59-62 | with it the debt falls every month and is never negative |
| `Amortisation.RoundedResidual` | src/modules/loans/domain/loan-approval.mediator.ts:59-62 | with the rounded instalment at most ((1+r)^n - 1)/(2r) is left over or overpaid |
| `Amortisation.InstalmentIsMonotone` | src/modules/loans/domain/loan-approval.mediator.ts:59-62 | a larger amount or a shorter term never means a smaller instalment, rounding included |
| `LoanApproval.LoanDesk.SetMediator` | src/modules/loans/domain/loan-approval.mediator.ts:34-36 | the desk reports to that mediator |
| `LoanApproval.LoanDesk.Review` | src/modules/loans/domain/loan-approval.mediator.ts:41-86 | a desk's review drives the mediator through the specified workflow |
| `LoanApproval.LoanApprovalMediator.constructor` | src/modules/loans/domain/loan-approval.mediator.ts:100-106 | a new mediator has empty state and all three desks report to it |
| `LoanApproval.LoanApprovalMediator.Decide` | src/modules/loans/domain/loan-approval.mediator.ts:108-112 | status and log are those of the specified workflow from the state before |
| `LoanApproval.LoanApprovalMediator.Notify` | src/modules/loans/domain/loan-approval.mediator.ts:114-136 | one notification, and everything it sets in motion, is the specified workflow |
| `LoanApproval.DecisionTable` | src/modules/loans/domain/loan-approval.mediator.ts:41-136 | rejected if and only if defaults, score below 600 or an instalment above 40 percent of the income; approved if and only if score at least 680, none of these, no crypto, gambling or speculation in the purpose in any letter case, and at most 500,000,000 |
| `LetterCase.LowersTheCapitals` | src/modules/loans/domain/loan-approval.mediator.ts:77 | lower-casing turns each of the 26 capitals into its small letter and changes nothing else |
| `LoanApproval.LogTellsTheStory` | src/modules/loans/domain/loan-approval.mediator.ts:114-136 | the log names each desk's finding once, in order, and stops at the one that settles the case |
| `LoanApproval.ReusedMediatorRemembers` | src/modules/loans/domain/loan-approval.mediator.ts:93-97 | a mediator used again decides like a new one except that a borderline applicant it has seen keeps later ones from approval |
| `LoanApproval.BetterApplicantsFareNoWorse` | src/modules/loans/domain/loan-approval.mediator.ts:41-136 | a smaller loan, longer term, higher income and better record never lead to a worse decision |
| `Consumer.NotificationConsumer.Handle` | src/modules/messaging/consumers/notification.consumer.ts:44-64 | table, dead letters and acknowledgement are those specified, whatever fails |
| `Consumer.BadMessagesAreDeadLettered` | src/modules/messaging/consumers/notification.consumer.ts:46-63 | a message that does not parse, or lacks a declared key, has another one or breaks a rule of its contract, touches no row and gains a dead letter when sending works |
| `Consumer.GoodMessagesAreStored` | src/modules/messaging/consumers/notification.consumer.ts:51-56 | a message that meets its contract has the row for its id once an insertion is done, its own if the id is new, and no dead letter if the insertion works |
| `Consumer.StepByContract` | src/modules/messaging/consumers/notification.consumer.ts:46-63 | the same for one step among those of other handlers |
| `Consumer.HandlerIsThreeSteps` | src/modules/messaging/consumers/notification.consumer.ts:44-64 | a handler running alone is delivery, insert and, on failure, dead letter in a row |
| `Consumer.NothingIsLost` | src/modules/messaging/consumers/notification.consumer.ts:44-64 | for every schedule of any number of handlers, every acknowledged message has a row for its event id or a dead letter, and every delivery is accounted for |
| `Consumer.RowsComeFromMessages` | src/modules/messaging/consumers/notification.consumer.ts:51-56 | every row is that of a valid delivered message with its id |
| `Consumer.RowsNeverChange` | src/modules/messaging/consumers/notification.consumer.ts:55 | a row once written is never changed or removed |
| `Consumer.SmoothRunsSort` | src/modules/messaging/consumers/notification.consumer.ts:46-63 | while nothing fails, every handled message that meets its contract has its row and no dead letter, and every other has one dead letter for each time it was handled |
| `Consumer.TableIsTheSetOfMessages` | src/modules/messaging/consumers/notification.consumer.ts:51-56 | while nothing fails and ids identify messages, the table at rest is exactly one row per valid message delivered |
| `Consumer.Confluence` | src/modules/messaging/consumers/notification.consumer.ts:44-64 | two such schedules that deliver the same messages, with any duplicates, order and interleaving, leave the same table |
| `Consumer.RedeliveryChangesNothing` | src/modules/messaging/consumers/notification.consumer.ts:55 | delivering its messages again, any number of times and whatever fails, leaves the table as it is |
| `Consumer.ConfluentExactly` | src/modules/messaging/consumers/notification.consumer.ts:44-64 | all smooth schedules at rest that deliver given messages leave one table if and only if each event id among them identifies one event |
| `Consumer.SharedIdsDependOnOrder` | src/modules/messaging/consumers/notification.consumer.ts:55 | two messages with one event id leave the same table in both orders if and only if their rows are equal |
| `Interest.TieredAgainstFlat` | src/modules/accounts/domain/interest.strategy.ts:31-49 | tiered interest equals flat up to the slab, is never below it, and above the slab adds one and a half percent on the excess |
| `Interest.TieredIsMonotone` | src/modules/accounts/domain/interest.strategy.ts:43-48 | a larger balance never earns less |
| `Interest.TieredIsSuperadditive` | src/modules/accounts/domain/interest.strategy.ts:43-48 | two accounts never earn more than one with both balances |
| `Interest.SplittingNeverPays` | src/modules/accounts/domain/interest.strategy.ts:43-48 | nor do any number of accounts |
| `Interest.CompoundIsFlat` | src/modules/accounts/domain/interest.strategy.ts:52-58 | for exact rates one compounding period a month earns the flat interest; in doubles the source can come out a unit lower |
| `Interest.InterestIsMonotone` | src/modules/accounts/domain/interest.strategy.ts:60-75 | for every account type interest is non-negative and monotone in the balance |
| `Interest.MonthlyInterestIs` | src/modules/accounts/domain/interest.strategy.ts:18-75 | the interest of each account type as a formula: nothing; the rate by twelfths rounded down; and for savings one and a half percent more above a million rupees |
| `Interest.TaxNeverExceedsInterest` | src/modules/accounts/domain/account.visitor.ts:67-83 | the tax withheld is the floor of 15, 0 or 20 percent of the interest by account type, never more than the interest, and interest after tax never falls as the balance grows |
| `References.ReferenceNumberGenerator.Next` | src/modules/core/reference-number.singleton.ts:37-42 | the counter steps modulo a million and the text is prefix, date, tag, six digits and two random characters |
| `References.SixDigits` | src/modules/core/reference-number.singleton.ts:41 | the padded counter always takes six characters and tells its value |
| `References.EndingTellsTheRandom` | src/modules/core/reference-number.singleton.ts:40-41 | the last two characters are digits or capitals, equal for two references if and only if their random numbers are |
| `References.DigitsRepeatEveryMillion` | src/modules/core/reference-number.singleton.ts:38-41 | two calls hand out the same six digits if and only if their distance is a multiple of a million |
| `References.ReferencesAreFresh` | src/modules/core/reference-number.singleton.ts:37-42 | any million consecutive calls hand out different references, whatever prefixes, dates and random endings |

## Left out

- NestJS controllers, modules, DTO validation, configuration, deployment files: wiring and I/O. `@IsPositive` on amounts at the border is not assumed; the validation chain does the work.
- The language-model code under `src/modules/ai`, the onboarding facade, account factories, product prototypes, portfolios, currency flyweights, the loan builder and memento, the credit-bureau adapter, fee and risk visitors, JSON and text renderers, mini statements: they would only add easy members.
- TypeORM, PostgreSQL and kafkajs: kept only as atomic commit, exclusive row locks, committed reads, a new object for each read of a row, and insert-or-ignore on a key. The version column of accounts, which saving does not check, is left out.
- Account ids: any text is an id and lower-casing covers A to Z, so what a text that is no uuid would do is not modelled; for a deposit or withdrawal the text only finds the row, so the operation holds the row's id. Order of events: a sender written in capitals keys its events by that text, apart from the other events of its row; no claim is made about their order.
- Deadlocks: PostgreSQL's detector, which after a while ends such a wait by aborting one of the transactions, is not modelled: a stuck world stays stuck.
- Money is unbounded integers: the limits of 64-bit columns and of safe integers are not modelled, and neither are fractional or not-a-number amounts, which the positive-amount handler refuses.
- Times are exact integers, one clock reading per operation; the local time zone and daylight saving of `startOfDay` are reduced to days of equal length, and the finer digits a column may hold beyond the driver's milliseconds are not modelled.
- Error texts and their detail objects: a refusal is a value naming the check.
- `AccountsService.changeStatus` is one atomic step that waits for the row; its own read-then-save race is not modelled. Opening an account takes its daily limit as given.
- An event lost when the process dies between commit and publication (a trade-off the architecture document names): publication is a separate step of the interleaved model that may come arbitrarily late, and observers that fail are not modelled.
- Order of events for the receiver of a transfer: such events are keyed by the sender only, so no claim is made.
- FraudRoundTrip.PrintParseRoundTrip: literals are exact decimals shown as the language shows numbers, exponents included; the rounding of a literal with more than 15 significant digits, or beyond the range of doubles, to the nearest double is not modelled, so for such literals the tree differs from the source's. The same holds for the other members of `FraudRoundTrip` and for `FraudInterpreter.PrintKeepsMeaning`.
- Fraud rules: contexts hold texts, numbers and truth values as own properties, as their type says, so no null and no own property that is undefined; the conversion of text to a number is a parameter of the evaluator; the wiring of the rule engine and its list of configured rules is reduced to a verdict that blocks a transfer.
- Pagination: page size is at least one (callers use 200 or 500), rows are never deleted or re-timed, and a row inserted later with an older key than the cursor is not promised to appear.
- Exchange rates are exact reals; `ExchangeRate.RepliesAreJustified` and `ExchangeRate.CacheIsLatest` are about sequential calls, while `ExchangeRate.LimiterHolds` is about any sequence of limiter attempts, so it covers overlapping calls too.
- Commands: the invoker is modelled serially, with random command ids taken as distinct; two undos of one command at the same moment are covered only on the ledger's side (`OverlappingReversals`). Timestamps and error texts of the records are left out.
- Statement: figures are integers; currency formatting and the header are left out. CSV follows section 2 of RFC 4180 with a line feed as record separator, as the renderer writes it; a trailing line break is read as one more record, and a carriage return is ordinary text.
- Loans: rates and instalments are exact reals (the source computes in doubles); the text of a log line is reduced to desk and finding; lower-casing covers A to Z. Applications are those the builder lets through.
- Event contracts: a payload value is a uuid, a text or a whole number; Joi also takes a number sent as text, and refuses numbers beyond the safe integers, which is not modelled.
- Consumer: parsing with the envelope check and the sentence for the customer are parameters; consumer groups, partitions and offsets are reduced to deliveries that may repeat.
- Interest.CompoundIsFlat: states equality over exact rates; in doubles the source can floor one unit lower, which is not modelled.
- Interest: rates and intermediate products are exact reals with a floor at the end, where the source computes in doubles.
- References: uniqueness across processes rests on the node tag, which is taken as given; the clock and the random number are inputs.

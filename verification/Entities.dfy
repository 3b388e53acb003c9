/** The rows of the accounts and ledger_entries tables, and the business errors. */
module Entities {
  import opened AccountIds
  import opened AccountState

  datatype Account = Account(number: string, currency: string, balance: int, dailyLimit: int, status: Status)

  datatype EntryKind = DEPOSIT_ENTRY | WITHDRAWAL_ENTRY | TRANSFER_IN | TRANSFER_OUT | FEE | INTEREST | REVERSAL

  /** One immutable line of the ledger; `amount` is positive for credits and negative for debits. */
  datatype Entry = Entry(account: AccountId, kind: EntryKind, amount: int, balanceAfter: int,
                         reference: string, description: string, createdAt: int)

  /** Why a request was turned away. */
  datatype Refusal =
    | AmountNotPositive
    | StatusForbids
    | InsufficientFunds
    | DailyLimitExceeded
    | SameAccount
    | AccountNotFound(id: AccountId)
    | CrossCurrency
    | AlreadyReversed
    | NoSuchTransaction
    | NotEnoughBalance(id: AccountId)
}

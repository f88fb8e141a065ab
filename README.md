# Bank ledger model

A Dafny model of the `Bank` class of `bank_management_system.py`. The class is an account
ledger kept as one saved list of accounts. Every public operation follows the same cycle:

1. re-read the list;
2. find the caller's account by account number and PIN hash;
3. check the operation's guards in a fixed order;
4. change that account on the loaded copy;
5. save the whole copy once.

The model has two layers.

- **Decision functions** (modules `CashOps`, `LoanOps`, `ProfileOps`, `DirectoryOps`,
  `TxFilter`). For each operation, a pure function of the loaded store says what it decides.
  The result is either `Rejected(error)` or `Done(reply, store to save)`. A rejection carries
  no store, so a rejected call can save nothing. The contracts give:
  - the error for each guard, in the source's order;
  - the exact condition for success;
  - the whole new state of the changed account.
- **The `BankSystem.Bank` class**. Its field `accounts` is the saved list. `hashPin` and
  `calculateEmi` stand for `_hash_pin` and `calculate_emi`. Each method works like the source:
  - a search loop finds the user;
  - guards return early;
  - the loaded copy is updated field by field;
  - one `SaveData` call stores it, and its `saveOk` flag says whether the write succeeded.

  Each method is proved to reply `Reply(o, saveOk)` and leave
  `accounts == Saved(o, saveOk, old(accounts))` for its decision function's outcome `o`.
  So a rejection, or a failed save, leaves the saved list unchanged. This holds for
  `update_details` even when it had already renamed the loaded copy.

On top of this:

- **`Ledger` defines the invariant `StoreOk`.** For every account it requires:
  - the balance is non-negative;
  - the balance equals the signed sum of its records (debit kinds as the statement classifies
    them);
  - every record's `balance` snapshot equals the running sum;
  - bills and goals are numbered 1..n;
  - closed loans owe nothing;
  - completed goals have reached their target.
- **`Invariants`** proves that every operation keeps `StoreOk`. It also proves that accounts
  only evolve forward: history is append-only, and a closed loan or a completed goal is never
  touched again.
- **`Properties`** relates several calls:
  - where money goes;
  - that a closed loan stays closed;
  - that a new account can log in;
  - that a deleted one cannot;
  - that beneficiary ids can repeat.
- **`Identifiers`** models the random generators as functions of their draws, with their formats.

Two behaviours of the source are modelled as written:

- **Transfers do not credit the recipient.** `transfer_money` finds the recipient through
  `_find_user_by_account`, which loads a second copy of the list. The recipient's credit and
  `transfer_in` record are made on that copy, and it is never saved. A successful transfer
  therefore debits the sender and leaves the recipient's saved account unchanged, and the bank
  holds `amount` less money (`Properties.TransferLosesAmount`).
- **`contribute_to_goal` does not check the sign of the amount.** A negative contribution
  raises the balance and lowers the goal's saved amount. The ledger invariant still holds,
  because a `savings_contribution` record is a debit of that (negative) amount.

Inputs that the source takes from the environment are parameters:

- the current time is `now` (a day number), one per call;
- the random draws of the generators are sequences of digits and letters;
- whether the JSON write succeeded is `saveOk`.

## Model

| member | source | states |
|---|---|---|
| Outcomes.Reply | bank_management_system.py:81-88 | the caller gets the operation's reply only when it was accepted and the save succeeded; a rejection gives its own error, a failed save gives SaveFailed |
| Outcomes.Saved | bank_management_system.py:81-88 | the saved list is replaced only by an accepted outcome whose save succeeded; otherwise it is unchanged |
| Registry.FindIndex | bank_management_system.py:113-119 | finds an account exactly when one matches both account number and PIN hash, and it is the first such account |
| Registry.FindByAccount | bank_management_system.py:122-127 | finds an account exactly when one has the number, and it is the first such account |
| Sequences.RemoveFirst | bank_management_system.py:593 | `list.remove` of a value that must be present (an absent one raises): the list has exactly one element fewer |
| Sequences.RemoveFirstMultiset | bank_management_system.py:593 | `list.remove` of a present value takes away exactly one occurrence of it and nothing else |
| Sequences.RemoveFirstOfFound | bank_management_system.py:589-596 | removing the authenticated account by value removes exactly its position, since no earlier account equals it; the others keep their order |
| Validation.Upper | bank_management_system.py:162 | the card holder name: same length, no lowercase letter left, each character unchanged or its uppercase form |
| Identifiers.AccountNumber | bank_management_system.py:91-94 | four uppercase letters followed by six digits |
| Identifiers.AccountNumberBijective | bank_management_system.py:91-94 | distinct draws give distinct account numbers and every string of the format is some draw |
| Identifiers.CardNumber | bank_management_system.py:97-98 | sixteen digits |
| Identifiers.Cvv | bank_management_system.py:101-102 | three digits |
| Identifiers.Otp | bank_management_system.py:105-106 | six digits |
| Identifiers.LoanId | bank_management_system.py:109-110 | `LN` followed by eight digits |
| Identifiers.LoanIdDecodes | bank_management_system.py:109-110 | the eight digits of a loan id are exactly its draws |
| Identifiers.DigitStringRoundTrip | bank_management_system.py:97-110 | joining digit draws into text and reading them back gives the draws |
| Identifiers.DigitsOfRoundTrip | bank_management_system.py:97-110 | every all-digit string is the text of the draws it reads back as |
| Ledger.AppendKeepsSnapshots | bank_management_system.py:185-192 | appending a record whose snapshot is the previous sum plus its signed amount keeps every snapshot equal to its running sum |
| Ledger.PostedKeepsLedger | bank_management_system.py:663-667 | moving the balance by a record's signed amount and appending that record with the new balance keeps the ledger consistent |
| Ledger.LastSnapshotIsBalance | bank_management_system.py:185-192 | in a consistent account the last record's snapshot is the current balance |
| CashOps.Deposit | bank_management_system.py:176-196 | rejects bad credentials, amount <= 0, amount > 50000, in that order; accepted exactly otherwise; raises that balance by the amount with one `deposit` record carrying the new balance; no other account or field changes |
| CashOps.Withdraw | bank_management_system.py:199-219 | rejects bad credentials, amount <= 0, balance < amount; accepted exactly otherwise; lowers the balance by the amount (never below 0) with one `withdrawal` record |
| CashOps.Transfer | bank_management_system.py:222-266 | checks sender, recipient exists, different accounts, amount > 0, balance >= amount, amount <= 100000, in that order; on success only the sender changes: debited, one `transfer_out` record naming the recipient; the recipient's saved account is unchanged |
| CashOps.PayBill | bank_management_system.py:314-352 | rejects bad credentials, amount <= 0, balance < amount; debits the amount, appends a bill numbered count+1 with status Paid, and one `bill_payment` record |
| LoanOps.RateFor | bank_management_system.py:374-381 | exactly the table's rate for each of the four known categories, 12.0 for any other; always between 8.5 and 12.5 |
| LoanOps.Growth | bank_management_system.py:355-360 | `(1 + r) ** n` is at least 1 and, for n > 0 and r > 0, above 1 |
| LoanOps.EmiDenominatorZeroIff | bank_management_system.py:355-360 | the EMI formula's denominator `pow(1 + r, t) - 1` is zero exactly for tenure 0 |
| LoanOps.LoanIndex | bank_management_system.py:425 | the first loan with the id, or none when no loan has it |
| LoanOps.AfterEmi | bank_management_system.py:438-449 | one more EMI paid; the loan closes exactly when all EMIs are paid or the principal is repaid, and then owes 0; otherwise it owes the reduced principal (> 0) and the due date moves 30 days |
| LoanOps.ApplyLoan | bank_management_system.py:354-417 | rejects bad credentials, amount < 10000, amount > 5000000, then `EmiUndefined` for tenure 0 (division by zero) or an EMI computation that raises (`calculateEmi` gives `None`, e.g. on `pow` overflow); succeeds exactly when none of these holds; appends an Active loan owing its whole principal with no EMI paid and a well-formed id, credits the principal with one `loan_credit` record |
| LoanOps.PayEmi | bank_management_system.py:420-461 | rejects bad credentials, unknown loan, closed loan, and balance < EMI as `InsufficientBalance`, each with its own error; debits the EMI, applies one amortization step to that loan only, one `emi_payment` record |
| LoanOps.CloseLoan | bank_management_system.py:464-495 | rejects bad credentials, unknown loan, closed loan, and balance < outstanding as `InsufficientBalance`, each with its own error; debits exactly the outstanding, closes the loan owing 0, one `loan_closure` record of the old outstanding |
| ProfileOps.CreateAccount | bank_management_system.py:130-173 | rejects age < 18, a PIN that is not 4 digits, an empty field, an e-mail without `@` or `.`, a mobile that is not 10 digits, in that order; appends one account with the drawn number, the PIN's hash, balance 0, empty lists, a 16-digit card and 3-digit CVV expiring 1825 days later in the upper-cased name; the new account is consistent |
| ProfileOps.UpdateDetails | bank_management_system.py:562-586 | rejects bad credentials, then a supplied malformed e-mail, mobile or new PIN, in that order, saving nothing (not even an earlier field); on success every supplied field replaces the stored one and nothing else changes |
| ProfileOps.DeleteAccount | bank_management_system.py:589-596 | on valid credentials the saved list is the old one without the caller's account, others in order |
| DirectoryOps.AddBeneficiary | bank_management_system.py:269-298 | rejects bad credentials, oneself, an unknown target, an already listed target, in that order; appends an entry with id count+1 caching the target's name |
| DirectoryOps.RemoveBeneficiary | bank_management_system.py:301-311 | on valid credentials keeps exactly the entries with another id, in order, even when none had the id |
| DirectoryOps.AddSavingsGoal | bank_management_system.py:498-520 | on valid credentials appends an active goal numbered count+1 with nothing saved |
| DirectoryOps.GoalIndex | bank_management_system.py:530 | the first goal with the id, or none when no goal has it |
| DirectoryOps.ContributeToGoal | bank_management_system.py:523-552 | rejects bad credentials, balance < amount, unknown goal, completed goal, in that order; moves the amount from the balance to the goal, which completes exactly when it reaches its target; one `savings_contribution` record |
| TxFilter.FilterSelectsExactlyPassing | bank_management_system.py:599-622 | the filter returns every record passing all active criteria, nothing else, each once and in the original order |
| TxFilter.NoCriteriaKeepsAll | bank_management_system.py:612-619 | with no active criterion every record is returned |
| TxFilter.FalsyCriteriaIgnored | bank_management_system.py:614-619 | a type of `all` or empty, or an amount bound of 0, filters exactly as if it were absent |
| Invariants.ReplaceOne | bank_management_system.py:264 | saving a copy in which only the caller's account changed, consistently and forward, keeps the whole list consistent |
| Invariants.DepositKeepsStore | bank_management_system.py:176-196 | a deposit keeps every account consistent and only moves accounts forward |
| Invariants.WithdrawKeepsStore | bank_management_system.py:199-219 | a withdrawal keeps every account consistent (balance never negative) and only moves accounts forward |
| Invariants.TransferKeepsStore | bank_management_system.py:222-266 | a transfer keeps every account consistent and only moves accounts forward |
| Invariants.PayBillKeepsStore | bank_management_system.py:314-352 | a bill payment keeps every account consistent, bills still numbered 1..n |
| Invariants.ApplyLoanKeepsStore | bank_management_system.py:363-417 | a loan application keeps every account consistent and only moves accounts forward |
| Invariants.PayEmiKeepsStore | bank_management_system.py:420-461 | an EMI payment keeps every account consistent; a closed loan owes nothing |
| Invariants.CloseLoanKeepsStore | bank_management_system.py:464-495 | a loan closure keeps every account consistent and only moves accounts forward |
| Invariants.ContributeKeepsStore | bank_management_system.py:523-552 | a contribution keeps every account consistent; a completed goal has reached its target |
| Invariants.AddSavingsGoalKeepsStore | bank_management_system.py:498-520 | adding a goal keeps every account consistent, goals still numbered 1..n |
| Invariants.AddBeneficiaryKeepsStore | bank_management_system.py:269-298 | adding a beneficiary keeps every account consistent |
| Invariants.RemoveBeneficiaryKeepsStore | bank_management_system.py:301-311 | removing beneficiaries keeps every account consistent |
| Invariants.UpdateDetailsKeepsStore | bank_management_system.py:562-586 | a profile update keeps every account consistent and only moves accounts forward (same number, card and history) |
| Invariants.CreateAccountKeepsStore | bank_management_system.py:130-173 | opening an account keeps the list consistent and leaves the existing accounts as they were |
| Invariants.DeleteAccountKeepsStore | bank_management_system.py:589-596 | deleting an account keeps the remaining accounts consistent |
| Properties.TotalAfterReplace | bank_management_system.py:264 | changing one account changes the bank's total money by exactly that account's change |
| Properties.DepositRaisesTotal | bank_management_system.py:185 | a deposit adds exactly its amount to the bank's total |
| Properties.WithdrawLowersTotal | bank_management_system.py:208 | a withdrawal removes exactly its amount from the bank's total |
| Properties.TransferLosesAmount | bank_management_system.py:239-264 | a transfer removes its amount from the bank's total, because the recipient's saved balance is unchanged |
| Properties.SameHolder | bank_management_system.py:113-119 | after an operation that kept the caller's number and PIN, the next call finds the same account |
| Properties.SameLoanIndex | bank_management_system.py:425 | loan lookup depends only on the loan ids |
| Properties.DepositThenWithdraw | bank_management_system.py:176-219 | withdrawing what was just deposited always succeeds and restores the balance, leaving two new records |
| Properties.CloseLoanIsFinal | bank_management_system.py:429-430 | after a loan is closed, both `pay_emi` and `close_loan` reject it as already closed |
| Properties.LastEmiIsFinal | bank_management_system.py:443-445 | after the EMI that closes a loan, both `pay_emi` and `close_loan` reject it as already closed |
| Properties.CreateThenLogin | bank_management_system.py:130-173 | a new account whose drawn number is unused is found by logging in with its number and PIN, and numbers stay unique |
| Properties.DeleteThenLoginFails | bank_management_system.py:589-596 | with unique numbers, a deleted account can no longer be logged into with any PIN |
| Properties.RemoveFirstNumbered | bank_management_system.py:308 | removing id 1 from entries numbered 1..n leaves entries 2..n in order |
| Properties.RemoveThenAddReusesId | bank_management_system.py:288-289 | after removing entry 1 of n >= 2, the next beneficiary added gets the same id as the last remaining one |
| BankSystem.Bank.constructor | bank_management_system.py:62-79 | the bank starts from the given saved list |
| BankSystem.Bank.FindUser | bank_management_system.py:113-119 | the search loop returns the loaded list and the first account matching number and PIN hash |
| BankSystem.Bank.FindUserByAccount | bank_management_system.py:122-127 | the search loop returns a copy of the first account with the number, or none |
| BankSystem.Bank.SaveData | bank_management_system.py:81-88 | the saved list becomes the copy exactly when the write succeeds |
| BankSystem.Bank.CreateAccount | bank_management_system.py:130-173 | replies and saves what `ProfileOps.CreateAccount` decides; keeps the list consistent |
| BankSystem.Bank.DepositMoney | bank_management_system.py:176-196 | replies and saves what `CashOps.Deposit` decides; keeps the list consistent |
| BankSystem.Bank.WithdrawMoney | bank_management_system.py:199-219 | replies and saves what `CashOps.Withdraw` decides; keeps the list consistent |
| BankSystem.Bank.TransferMoney | bank_management_system.py:222-266 | replies and saves what `CashOps.Transfer` decides (the recipient copy it credits is dropped); keeps the list consistent |
| BankSystem.Bank.AddBeneficiary | bank_management_system.py:269-298 | replies and saves what `DirectoryOps.AddBeneficiary` decides; keeps the list consistent |
| BankSystem.Bank.RemoveBeneficiary | bank_management_system.py:301-311 | replies and saves what `DirectoryOps.RemoveBeneficiary` decides; keeps the list consistent |
| BankSystem.Bank.PayBill | bank_management_system.py:314-352 | replies and saves what `CashOps.PayBill` decides; keeps the list consistent |
| BankSystem.Bank.ApplyLoan | bank_management_system.py:363-417 | replies and saves what `LoanOps.ApplyLoan` decides; keeps the list consistent |
| BankSystem.Bank.Amortize | bank_management_system.py:437-448 | the field-by-field update of the loan (count the EMI, reduce the outstanding amount by the principal part but not below 0, then close it or move the due date) equals one `AfterEmi` step |
| BankSystem.Bank.PayEmi | bank_management_system.py:420-461 | replies and saves what `LoanOps.PayEmi` decides; keeps the list consistent |
| BankSystem.Bank.CloseLoan | bank_management_system.py:464-495 | replies and saves what `LoanOps.CloseLoan` decides; keeps the list consistent |
| BankSystem.Bank.AddSavingsGoal | bank_management_system.py:498-520 | replies and saves what `DirectoryOps.AddSavingsGoal` decides; keeps the list consistent |
| BankSystem.Bank.ContributeToGoal | bank_management_system.py:523-552 | replies and saves what `DirectoryOps.ContributeToGoal` decides; keeps the list consistent |
| BankSystem.Bank.UpdateDetails | bank_management_system.py:562-586 | replies and saves what `ProfileOps.UpdateDetails` decides, so a rejected update saves no field; keeps the list consistent |
| BankSystem.Bank.DeleteAccount | bank_management_system.py:589-596 | replies and saves what `ProfileOps.DeleteAccount` decides; keeps the list consistent |
| BankSystem.Bank.FilterTransactions | bank_management_system.py:599-622 | the filtering loop returns `TxFilter.Filtered` of the caller's records, or an error for bad credentials; nothing is saved |

## Left out

- File persistence is not modelled. This covers both `_load_data` definitions (the later one
  overrides the first), JSON encoding, the rename of a corrupt file to `.backup`, and the
  write in `_save_data`. The saved file is the `accounts` field, and the write's success is
  the `saveOk` flag.
- `calculate_emi` is not modelled: it is floating-point `pow` and `round`. It is the
  parameter `calculateEmi`, which returns `None` where the real computation raises (a `pow`
  overflow for a very long tenure, for instance). Its division by zero at tenure 0 is modelled
  on its own, since it happens for every rate. Either failure is the rejection
  `EmiUndefined`, which saves nothing; in the source the exception propagates to the caller
  instead of being returned.
- `_hash_pin` (SHA-256) is the uninterpreted `hashPin`.
- The `random` module is not modelled. Each generator takes its draws as a parameter. Nothing
  in the source checks generated numbers for uniqueness, and neither does the model.
- `datetime` text formatting and parsing are not modelled. Dates are integer day numbers, and
  an operation reads one `now` where the source reads the clock several times. The card expiry
  is kept as a day number, not in `%m/%y` form.
- Reply messages are not modelled as text. A reply is the value the message reports (new
  balance, account number, loan id and EMI, the loan after an EMI) or an `Error` constructor.
- `str.isdigit` and `str.upper` are modelled on ASCII only. Python accepts other Unicode
  digits and upper-cases non-ASCII letters.
- Dynamic typing is not modelled. `str(pin)` of a non-string PIN and the `'beneficiaries'
  not in user` repairs of older records are left out: records always have all their lists.
- `get_details` is not modelled: it is a plain authenticated read and changes nothing.
- `generate_statement_pdf`, the charts, `load_css` and `main()` (the Streamlit UI, including
  the OTP timer and the UI-only input limits) are not modelled. Only the statement's debit
  classification is used, in `Records.TxKind.IsDebit`.
- Concurrency (two interleaved load-modify-save cycles) is not modelled.
- Money is an exact `real`. Rounding of floating-point balances is not modelled.

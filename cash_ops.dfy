/** Cash movement on the loaded store: deposit, withdrawal, transfer and bill
    payment. Each function gives the outcome an operation decides before its
    single save: a rejection (nothing to save) or the reply and the whole store to save. */
module CashOps {

  import opened Records
  import opened Outcomes
  import opened Registry
  import opened Ledger

  const MaxDeposit: real := 50000.0
  const MaxTransfer: real := 100000.0

  /** `deposit_money`: credentials, then 0 < amount <= 50000; credit and record. */
  function Deposit(s: Store, accountNo: string, pinHash: string, amount: real, now: int): (o: Outcome<real, Store>)
    ensures !Authenticated(s, accountNo, pinHash) ==> o == Rejected(InvalidCredentials)
    ensures Authenticated(s, accountNo, pinHash) && amount <= 0.0 ==> o == Rejected(NonPositiveAmount)
    ensures Authenticated(s, accountNo, pinHash) && amount > MaxDeposit ==> o == Rejected(DepositLimitExceeded)
    ensures o.Done? <==> Authenticated(s, accountNo, pinHash) && 0.0 < amount <= MaxDeposit
    ensures o.Done? ==>
      var i := Who(s, accountNo, pinHash);
      && OnlyChanged(s, o.store, i)
      && o.store[i].balance == s[i].balance + amount
      && Posted(s[i], o.store[i], TxKind.Deposit, amount, now, "Cash Deposit")
      && o.store[i] == s[i].(balance := o.store[i].balance, transactions := o.store[i].transactions)
      && o.value == o.store[i].balance
  {
    match FindIndex(s, accountNo, pinHash)
    case None => Rejected(InvalidCredentials)
    case Some(i) =>
      if amount <= 0.0 then Rejected(NonPositiveAmount)
      else if amount > MaxDeposit then Rejected(DepositLimitExceeded)
      else
        var user := Record(s[i].(balance := s[i].balance + amount), TxKind.Deposit, amount, now, "Cash Deposit");
        Done(user.balance, s[i := user])
  }

  /** `withdraw_money`: credentials, then 0 < amount <= balance; debit and record. */
  function Withdraw(s: Store, accountNo: string, pinHash: string, amount: real, now: int): (o: Outcome<real, Store>)
    ensures !Authenticated(s, accountNo, pinHash) ==> o == Rejected(InvalidCredentials)
    ensures Authenticated(s, accountNo, pinHash) && amount <= 0.0 ==> o == Rejected(NonPositiveAmount)
    ensures Authenticated(s, accountNo, pinHash) && 0.0 < amount && s[Who(s, accountNo, pinHash)].balance < amount
            ==> o == Rejected(InsufficientBalance)
    ensures o.Done? <==> Authenticated(s, accountNo, pinHash) && 0.0 < amount <= s[Who(s, accountNo, pinHash)].balance
    ensures o.Done? ==>
      var i := Who(s, accountNo, pinHash);
      && OnlyChanged(s, o.store, i)
      && o.store[i].balance == s[i].balance - amount >= 0.0
      && Posted(s[i], o.store[i], Withdrawal, amount, now, "Cash Withdrawal")
      && o.store[i] == s[i].(balance := o.store[i].balance, transactions := o.store[i].transactions)
      && o.value == o.store[i].balance
  {
    match FindIndex(s, accountNo, pinHash)
    case None => Rejected(InvalidCredentials)
    case Some(i) =>
      if amount <= 0.0 then Rejected(NonPositiveAmount)
      else if s[i].balance < amount then Rejected(InsufficientBalance)
      else
        var user := Record(s[i].(balance := s[i].balance - amount), Withdrawal, amount, now, "Cash Withdrawal");
        Done(user.balance, s[i := user])
  }

  function TransferDescription(description: string): string {
    if description != "" then description else "Money Transfer"
  }

  /** `transfer_money`. Checks, in order: sender credentials, recipient exists, different
      account numbers, amount > 0, balance >= amount, amount <= 100000. The recipient is
      looked up in a second, separate load of the store; its credit and `transfer_in`
      record are made on that copy, which is never saved. Only the sender's side lands. */
  function Transfer(s: Store, fromAccount: string, pinHash: string, toAccount: string, amount: real,
                    description: string, now: int): (o: Outcome<real, Store>)
    ensures !Authenticated(s, fromAccount, pinHash) ==> o == Rejected(InvalidCredentials)
    ensures Authenticated(s, fromAccount, pinHash) && !HasAccount(s, toAccount) ==> o == Rejected(RecipientNotFound)
    ensures Authenticated(s, fromAccount, pinHash) && HasAccount(s, toAccount) && fromAccount == toAccount
            ==> o == Rejected(SameAccount)
    ensures (Authenticated(s, fromAccount, pinHash) && HasAccount(s, toAccount) && fromAccount != toAccount
             && amount <= 0.0) ==> o == Rejected(NonPositiveAmount)
    ensures (Authenticated(s, fromAccount, pinHash) && HasAccount(s, toAccount) && fromAccount != toAccount
             && 0.0 < amount && s[Who(s, fromAccount, pinHash)].balance < amount) ==> o == Rejected(InsufficientBalance)
    ensures (Authenticated(s, fromAccount, pinHash) && HasAccount(s, toAccount) && fromAccount != toAccount
             && 0.0 < amount <= s[Who(s, fromAccount, pinHash)].balance && amount > MaxTransfer)
            ==> o == Rejected(TransferLimitExceeded)
    ensures o.Done? <==>
      && Authenticated(s, fromAccount, pinHash) && HasAccount(s, toAccount) && fromAccount != toAccount
      && 0.0 < amount <= s[Who(s, fromAccount, pinHash)].balance && amount <= MaxTransfer
    ensures o.Done? ==>
      var i, j := Who(s, fromAccount, pinHash), FindByAccount(s, toAccount).value;
      && OnlyChanged(s, o.store, i)
      && i != j
      && o.store[i].balance == s[i].balance - amount >= 0.0
      && Posted(s[i], o.store[i], TransferOut(toAccount, s[j].name), amount, now, TransferDescription(description))
      && o.store[i] == s[i].(balance := o.store[i].balance, transactions := o.store[i].transactions)
      && o.store[j] == s[j]
      && o.value == o.store[i].balance
  {
    match FindIndex(s, fromAccount, pinHash)
    case None => Rejected(InvalidCredentials)
    case Some(i) =>
      match FindByAccount(s, toAccount)
      case None => Rejected(RecipientNotFound)
      case Some(j) =>
        if fromAccount == toAccount then Rejected(SameAccount)
        else if amount <= 0.0 then Rejected(NonPositiveAmount)
        else if s[i].balance < amount then Rejected(InsufficientBalance)
        else if amount > MaxTransfer then Rejected(TransferLimitExceeded)
        else
          var sender := Record(s[i].(balance := s[i].balance - amount), TransferOut(toAccount, s[j].name),
                               amount, now, TransferDescription(description));
          Done(sender.balance, s[i := sender])
  }

  /** `pay_bill`: credentials, then 0 < amount <= balance; debit, store a bill numbered
      after the existing ones with status Paid, and record the payment. */
  function PayBill(s: Store, accountNo: string, pinHash: string, billType: string, provider: string,
                   billNumber: string, amount: real, now: int): (o: Outcome<real, Store>)
    ensures !Authenticated(s, accountNo, pinHash) ==> o == Rejected(InvalidCredentials)
    ensures Authenticated(s, accountNo, pinHash) && amount <= 0.0 ==> o == Rejected(NonPositiveAmount)
    ensures Authenticated(s, accountNo, pinHash) && 0.0 < amount && s[Who(s, accountNo, pinHash)].balance < amount
            ==> o == Rejected(InsufficientBalance)
    ensures o.Done? <==> Authenticated(s, accountNo, pinHash) && 0.0 < amount <= s[Who(s, accountNo, pinHash)].balance
    ensures o.Done? ==>
      var i := Who(s, accountNo, pinHash);
      && OnlyChanged(s, o.store, i)
      && o.store[i].balance == s[i].balance - amount >= 0.0
      && Posted(s[i], o.store[i], BillPayment, amount, now, billType + " - " + provider)
      && o.store[i].bills == s[i].bills + [Bill(|s[i].bills| + 1, billType, provider, billNumber, amount, now, Paid)]
      && o.store[i] == s[i].(balance := o.store[i].balance, transactions := o.store[i].transactions,
                             bills := o.store[i].bills)
      && o.value == o.store[i].balance
  {
    match FindIndex(s, accountNo, pinHash)
    case None => Rejected(InvalidCredentials)
    case Some(i) =>
      if amount <= 0.0 then Rejected(NonPositiveAmount)
      else if s[i].balance < amount then Rejected(InsufficientBalance)
      else
        var debited := s[i].(balance := s[i].balance - amount);
        var bill := Bill(|debited.bills| + 1, billType, provider, billNumber, amount, now, Paid);
        var user := Record(debited.(bills := debited.bills + [bill]), BillPayment, amount, now, billType + " - " + provider);
        Done(user.balance, s[i := user])
  }
}

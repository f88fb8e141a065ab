/** The `Bank` class. Its field `accounts` is the saved list of accounts. Every operation
    re-reads that list, authenticates the caller by account number and PIN hash, checks its
    guards in a fixed order, changes the loaded copy step by step and saves the whole copy
    once. A rejection returns before the save; a failed save leaves the saved list as it was.
    Each method is proved to reply and save exactly what the matching function of CashOps,
    LoanOps, ProfileOps, DirectoryOps or TxFilter decides, and to keep `StoreOk`. */
module BankSystem {

  import opened Records
  import opened Outcomes
  import opened Registry
  import opened Ledger
  import opened Validation
  import opened Identifiers
  import opened Sequences
  import opened TxFilter
  import CashOps
  import LoanOps
  import ProfileOps
  import DirectoryOps
  import Invariants

  class Bank {
    /** The saved list of accounts. */
    var accounts: Store
    /** `_hash_pin` (SHA-256 of the PIN text), left uninterpreted. */
    const hashPin: string -> string
    /** `calculate_emi` (floating-point amortization), left uninterpreted. */
    const calculateEmi: (real, real, int) -> Option<LoanOps.EmiQuote>

    constructor(saved: Store, hashPin: string -> string, calculateEmi: (real, real, int) -> Option<LoanOps.EmiQuote>)
      ensures accounts == saved && this.hashPin == hashPin && this.calculateEmi == calculateEmi
    {
      accounts := saved;
      this.hashPin := hashPin;
      this.calculateEmi := calculateEmi;
    }

    /** `_find_user`: load the list and scan it for the first account whose number and PIN
        hash both match. */
    method FindUser(accountNo: string, pin: string) returns (found: Option<nat>, data: Store)
      ensures data == accounts
      ensures found == FindIndex(accounts, accountNo, hashPin(pin))
    {
      data := accounts;
      var hashed := hashPin(pin);
      var k := 0;
      while k < |data|
        invariant 0 <= k <= |data|
        invariant forall j :: 0 <= j < k ==> !Authenticates(data[j], accountNo, hashed)
      {
        if data[k].accountNo == accountNo && data[k].pinHash == hashed {
          return Some(k), data;
        }
        k := k + 1;
      }
      return None, data;
    }

    /** `_find_user_by_account`: a separate load of the list, scanned for the first account
        with this number. The account returned is a copy that is not saved by the caller. */
    method FindUserByAccount(accountNo: string) returns (found: Option<Account>)
      ensures found.None? <==> !HasAccount(accounts, accountNo)
      ensures found.Some? ==> found.value == accounts[FindByAccount(accounts, accountNo).value]
    {
      var data := accounts;
      var k := 0;
      while k < |data|
        invariant 0 <= k <= |data|
        invariant forall j :: 0 <= j < k ==> data[j].accountNo != accountNo
      {
        if data[k].accountNo == accountNo {
          return Some(data[k]);
        }
        k := k + 1;
      }
      return None;
    }

    /** `_save_data`: replace the saved list when the write succeeds. */
    method SaveData(data: Store, saveOk: bool) returns (ok: bool)
      modifies this
      ensures ok == saveOk
      ensures accounts == (if saveOk then data else old(accounts))
    {
      if saveOk {
        accounts := data;
      }
      ok := saveOk;
    }

    /** `create_account`. */
    method CreateAccount(name: string, age: int, email: string, mobile: string, address: string, pin: string,
                         draws: ProfileOps.OpeningDraws, now: int, saveOk: bool) returns (r: Result<string>)
      requires draws.Complete()
      modifies this
      ensures var o := ProfileOps.CreateAccount(old(accounts), name, age, email, mobile, address, pin, hashPin(pin),
                                                draws, now);
              r == Reply(o, saveOk) && accounts == Saved(o, saveOk, old(accounts))
      ensures old(StoreOk(accounts)) ==> StoreOk(accounts)
    {
      ghost var o := ProfileOps.CreateAccount(accounts, name, age, email, mobile, address, pin, hashPin(pin), draws, now);
      if age < ProfileOps.MinAge {
        return Err(Underage);
      }
      if |pin| != 4 || !IsDigits(pin) {
        return Err(InvalidPin);
      }
      if name == "" || email == "" || mobile == "" || address == "" {
        return Err(MissingField);
      }
      if !('@' in email) || !('.' in email) {
        return Err(InvalidEmail);
      }
      if |mobile| != 10 || !IsDigits(mobile) {
        return Err(InvalidMobile);
      }
      var data := accounts;
      var card := VirtualCard(CardNumber(draws.card), Cvv(draws.cvv), now + ProfileOps.CardLifetime, Upper(name));
      var account := Account(name, age, email, mobile, address, hashPin(pin), AccountNumber(draws.letters, draws.digits),
                             0.0, now, [], card, [], [], [], []);
      data := data + [account];
      assert o == Done(account.accountNo, data);
      var ok := SaveData(data, saveOk);
      r := if ok then Ok(account.accountNo) else Err(SaveFailed);
      if StoreOk(old(accounts)) {
        Invariants.CreateAccountKeepsStore(old(accounts), name, age, email, mobile, address, pin, hashPin(pin), draws, now);
      }
    }

    /** `deposit_money`. */
    method DepositMoney(accountNo: string, pin: string, amount: real, now: int, saveOk: bool) returns (r: Result<real>)
      modifies this
      ensures var o := CashOps.Deposit(old(accounts), accountNo, hashPin(pin), amount, now);
              r == Reply(o, saveOk) && accounts == Saved(o, saveOk, old(accounts))
      ensures old(StoreOk(accounts)) ==> StoreOk(accounts)
    {
      ghost var o := CashOps.Deposit(accounts, accountNo, hashPin(pin), amount, now);
      var found, data := FindUser(accountNo, pin);
      if found.None? {
        return Err(InvalidCredentials);
      }
      var i := found.value;
      if amount <= 0.0 {
        return Err(NonPositiveAmount);
      }
      if amount > CashOps.MaxDeposit {
        return Err(DepositLimitExceeded);
      }
      var user := data[i];
      user := user.(balance := user.balance + amount);
      user := user.(transactions := user.transactions + [Transaction(TxKind.Deposit, amount, now, user.balance, "Cash Deposit")]);
      data := data[i := user];
      assert o == Done(user.balance, data);
      var ok := SaveData(data, saveOk);
      r := if ok then Ok(user.balance) else Err(SaveFailed);
      if StoreOk(old(accounts)) {
        Invariants.DepositKeepsStore(old(accounts), accountNo, hashPin(pin), amount, now);
      }
    }

    /** `withdraw_money`. */
    method WithdrawMoney(accountNo: string, pin: string, amount: real, now: int, saveOk: bool) returns (r: Result<real>)
      modifies this
      ensures var o := CashOps.Withdraw(old(accounts), accountNo, hashPin(pin), amount, now);
              r == Reply(o, saveOk) && accounts == Saved(o, saveOk, old(accounts))
      ensures old(StoreOk(accounts)) ==> StoreOk(accounts)
    {
      ghost var o := CashOps.Withdraw(accounts, accountNo, hashPin(pin), amount, now);
      var found, data := FindUser(accountNo, pin);
      if found.None? {
        return Err(InvalidCredentials);
      }
      var i := found.value;
      if amount <= 0.0 {
        return Err(NonPositiveAmount);
      }
      if data[i].balance < amount {
        return Err(InsufficientBalance);
      }
      var user := data[i];
      user := user.(balance := user.balance - amount);
      user := user.(transactions := user.transactions + [Transaction(Withdrawal, amount, now, user.balance, "Cash Withdrawal")]);
      data := data[i := user];
      assert o == Done(user.balance, data);
      var ok := SaveData(data, saveOk);
      r := if ok then Ok(user.balance) else Err(SaveFailed);
      if StoreOk(old(accounts)) {
        Invariants.WithdrawKeepsStore(old(accounts), accountNo, hashPin(pin), amount, now);
      }
    }

    /** `transfer_money`. The recipient comes from a separate load; its credit and
        `transfer_in` record are made on that copy, which is dropped unsaved. */
    method TransferMoney(fromAccount: string, pin: string, toAccount: string, amount: real, description: string,
                         now: int, saveOk: bool) returns (r: Result<real>)
      modifies this
      ensures var o := CashOps.Transfer(old(accounts), fromAccount, hashPin(pin), toAccount, amount, description, now);
              r == Reply(o, saveOk) && accounts == Saved(o, saveOk, old(accounts))
      ensures old(StoreOk(accounts)) ==> StoreOk(accounts)
    {
      ghost var o := CashOps.Transfer(accounts, fromAccount, hashPin(pin), toAccount, amount, description, now);
      var found, data := FindUser(fromAccount, pin);
      if found.None? {
        return Err(InvalidCredentials);
      }
      var i := found.value;
      var recipient := FindUserByAccount(toAccount);
      if recipient.None? {
        return Err(RecipientNotFound);
      }
      if fromAccount == toAccount {
        return Err(SameAccount);
      }
      if amount <= 0.0 {
        return Err(NonPositiveAmount);
      }
      if data[i].balance < amount {
        return Err(InsufficientBalance);
      }
      if amount > CashOps.MaxTransfer {
        return Err(TransferLimitExceeded);
      }
      var sender := data[i];
      var other := recipient.value;
      sender := sender.(balance := sender.balance - amount);
      other := other.(balance := other.balance + amount);
      var transferDesc := if description != "" then description else "Money Transfer";
      sender := sender.(transactions := sender.transactions +
        [Transaction(TransferOut(toAccount, other.name), amount, now, sender.balance, transferDesc)]);
      other := other.(transactions := other.transactions +
        [Transaction(TransferIn(fromAccount, sender.name), amount, now, other.balance, transferDesc)]);
      data := data[i := sender];
      assert o == Done(sender.balance, data);
      var ok := SaveData(data, saveOk);
      r := if ok then Ok(sender.balance) else Err(SaveFailed);
      if StoreOk(old(accounts)) {
        Invariants.TransferKeepsStore(old(accounts), fromAccount, hashPin(pin), toAccount, amount, description, now);
      }
    }

    /** `add_beneficiary`. The duplicate check scans the directory. */
    method AddBeneficiary(accountNo: string, pin: string, target: string, nickname: string, now: int, saveOk: bool)
      returns (r: Result<Beneficiary>)
      modifies this
      ensures var o := DirectoryOps.AddBeneficiary(old(accounts), accountNo, hashPin(pin), target, nickname, now);
              r == Reply(o, saveOk) && accounts == Saved(o, saveOk, old(accounts))
      ensures old(StoreOk(accounts)) ==> StoreOk(accounts)
    {
      ghost var o := DirectoryOps.AddBeneficiary(accounts, accountNo, hashPin(pin), target, nickname, now);
      var found, data := FindUser(accountNo, pin);
      if found.None? {
        return Err(InvalidCredentials);
      }
      var i := found.value;
      if accountNo == target {
        return Err(SelfBeneficiary);
      }
      var beneficiary := FindUserByAccount(target);
      if beneficiary.None? {
        return Err(BeneficiaryNotFound);
      }
      var user := data[i];
      for k := 0 to |user.beneficiaries|
        invariant forall m :: 0 <= m < k ==> user.beneficiaries[m].account != target
      {
        if user.beneficiaries[k].account == target {
          return Err(DuplicateBeneficiary);
        }
      }
      var entry := Beneficiary(|user.beneficiaries| + 1, target, beneficiary.value.name, nickname, now);
      user := user.(beneficiaries := user.beneficiaries + [entry]);
      data := data[i := user];
      assert o == Done(entry, data);
      var ok := SaveData(data, saveOk);
      r := if ok then Ok(entry) else Err(SaveFailed);
      if StoreOk(old(accounts)) {
        Invariants.AddBeneficiaryKeepsStore(old(accounts), accountNo, hashPin(pin), target, nickname, now);
      }
    }

    /** `remove_beneficiary`. */
    method RemoveBeneficiary(accountNo: string, pin: string, id: int, saveOk: bool) returns (r: Result<()>)
      modifies this
      ensures var o := DirectoryOps.RemoveBeneficiary(old(accounts), accountNo, hashPin(pin), id);
              r == Reply(o, saveOk) && accounts == Saved(o, saveOk, old(accounts))
      ensures old(StoreOk(accounts)) ==> StoreOk(accounts)
    {
      ghost var o := DirectoryOps.RemoveBeneficiary(accounts, accountNo, hashPin(pin), id);
      var found, data := FindUser(accountNo, pin);
      if found.None? {
        return Err(InvalidCredentials);
      }
      var i := found.value;
      var user := data[i];
      user := user.(beneficiaries := DirectoryOps.WithoutId(user.beneficiaries, id));
      data := data[i := user];
      assert o == Done((), data);
      var ok := SaveData(data, saveOk);
      r := if ok then Ok(()) else Err(SaveFailed);
      if StoreOk(old(accounts)) {
        Invariants.RemoveBeneficiaryKeepsStore(old(accounts), accountNo, hashPin(pin), id);
      }
    }

    /** `pay_bill`. */
    method PayBill(accountNo: string, pin: string, billType: string, provider: string, billNumber: string,
                   amount: real, now: int, saveOk: bool) returns (r: Result<real>)
      modifies this
      ensures var o := CashOps.PayBill(old(accounts), accountNo, hashPin(pin), billType, provider, billNumber, amount, now);
              r == Reply(o, saveOk) && accounts == Saved(o, saveOk, old(accounts))
      ensures old(StoreOk(accounts)) ==> StoreOk(accounts)
    {
      ghost var o := CashOps.PayBill(accounts, accountNo, hashPin(pin), billType, provider, billNumber, amount, now);
      var found, data := FindUser(accountNo, pin);
      if found.None? {
        return Err(InvalidCredentials);
      }
      var i := found.value;
      if amount <= 0.0 {
        return Err(NonPositiveAmount);
      }
      if data[i].balance < amount {
        return Err(InsufficientBalance);
      }
      var user := data[i];
      user := user.(balance := user.balance - amount);
      var bill := Bill(|user.bills| + 1, billType, provider, billNumber, amount, now, Paid);
      user := user.(bills := user.bills + [bill]);
      user := user.(transactions := user.transactions +
        [Transaction(BillPayment, amount, now, user.balance, billType + " - " + provider)]);
      data := data[i := user];
      assert o == Done(user.balance, data);
      var ok := SaveData(data, saveOk);
      r := if ok then Ok(user.balance) else Err(SaveFailed);
      if StoreOk(old(accounts)) {
        Invariants.PayBillKeepsStore(old(accounts), accountNo, hashPin(pin), billType, provider, billNumber, amount, now);
      }
    }

    /** `apply_loan`. A zero tenure makes `calculate_emi` divide by zero, and a huge one makes
        its `pow` overflow; either exception ends the call before anything is saved. */
    method ApplyLoan(accountNo: string, pin: string, loanType: string, amount: real, tenureMonths: int,
                     purpose: string, loanDigits: seq<Digit>, now: int, saveOk: bool) returns (r: Result<(string, real)>)
      requires |loanDigits| == 8
      modifies this
      ensures var o := LoanOps.ApplyLoan(old(accounts), accountNo, hashPin(pin), loanType, amount, tenureMonths, purpose,
                                         calculateEmi, loanDigits, now);
              r == Reply(o, saveOk) && accounts == Saved(o, saveOk, old(accounts))
      ensures old(StoreOk(accounts)) ==> StoreOk(accounts)
    {
      ghost var o := LoanOps.ApplyLoan(accounts, accountNo, hashPin(pin), loanType, amount, tenureMonths, purpose, calculateEmi,
                                       loanDigits, now);
      var found, data := FindUser(accountNo, pin);
      if found.None? {
        return Err(InvalidCredentials);
      }
      var i := found.value;
      if amount < LoanOps.MinLoan {
        return Err(LoanBelowMinimum);
      }
      if amount > LoanOps.MaxLoan {
        return Err(LoanAboveMaximum);
      }
      var rate := LoanOps.RateFor(loanType);
      if tenureMonths == 0 {
        return Err(EmiUndefined);
      }
      var computed := calculateEmi(amount, rate, tenureMonths);
      if computed.None? {
        return Err(EmiUndefined);
      }
      var quote := computed.value;
      var user := data[i];
      var loan := Loan(LoanId(loanDigits), loanType, amount, rate, tenureMonths, quote.emi, quote.totalAmount,
                       quote.totalInterest, amount, 0, purpose, now, Active, now + LoanOps.EmiInterval);
      user := user.(loans := user.loans + [loan]);
      user := user.(balance := user.balance + amount);
      user := user.(transactions := user.transactions +
        [Transaction(LoanCredit, amount, now, user.balance, "Loan Disbursed - " + loanType)]);
      data := data[i := user];
      assert o == Done((loan.loanId, quote.emi), data);
      var ok := SaveData(data, saveOk);
      r := if ok then Ok((loan.loanId, quote.emi)) else Err(SaveFailed);
      if StoreOk(old(accounts)) {
        Invariants.ApplyLoanKeepsStore(old(accounts), accountNo, hashPin(pin), loanType, amount, tenureMonths, purpose,
                                       calculateEmi, loanDigits, now);
      }
    }

    /** The field-by-field loan update of `pay_emi`: count the EMI, take its principal part
        off the outstanding amount (never below 0), then either close the loan or move its
        due date 30 days on. */
    static method Amortize(loan: Loan) returns (updated: Loan)
      requires loan.status == Active
      ensures updated == LoanOps.AfterEmi(loan)
    {
      updated := loan.(paidEmis := loan.paidEmis + 1);
      var principalPart := loan.emi - LoanOps.MonthlyInterest(updated);
      updated := updated.(outstanding := if updated.outstanding - principalPart > 0.0
                                         then updated.outstanding - principalPart else 0.0);
      if updated.paidEmis >= updated.tenureMonths || updated.outstanding <= 0.0 {
        updated := updated.(status := Closed, outstanding := 0.0);
      } else {
        updated := updated.(nextEmiDate := updated.nextEmiDate + LoanOps.EmiInterval);
      }
    }

    /** `pay_emi`: the balance, then the loan's fields (`Amortize`), then the record. */
    method PayEmi(accountNo: string, pin: string, loanId: string, now: int, saveOk: bool) returns (r: Result<Loan>)
      modifies this
      ensures var o := LoanOps.PayEmi(old(accounts), accountNo, hashPin(pin), loanId, now);
              r == Reply(o, saveOk) && accounts == Saved(o, saveOk, old(accounts))
      ensures old(StoreOk(accounts)) ==> StoreOk(accounts)
    {
      ghost var o := LoanOps.PayEmi(accounts, accountNo, hashPin(pin), loanId, now);
      var found, data := FindUser(accountNo, pin);
      if found.None? {
        return Err(InvalidCredentials);
      }
      var i := found.value;
      var user := data[i];
      var index := LoanOps.LoanIndex(user, loanId);
      if index.None? {
        return Err(LoanNotFound);
      }
      var k := index.value;
      var loan := user.loans[k];
      if loan.status == Closed {
        return Err(LoanAlreadyClosed);
      }
      var emiAmount := loan.emi;
      if user.balance < emiAmount {
        return Err(InsufficientBalance);
      }
      user := user.(balance := user.balance - emiAmount);
      loan := Amortize(loan);
      user := user.(loans := user.loans[k := loan]);
      user := user.(transactions := user.transactions +
        [Transaction(EmiPayment, emiAmount, now, user.balance, "EMI Paid - " + loan.loanType)]);
      data := data[i := user];
      assert o == Done(loan, data);
      var ok := SaveData(data, saveOk);
      r := if ok then Ok(loan) else Err(SaveFailed);
      if StoreOk(old(accounts)) {
        Invariants.PayEmiKeepsStore(old(accounts), accountNo, hashPin(pin), loanId, now);
      }
    }

    /** `close_loan`. */
    method CloseLoan(accountNo: string, pin: string, loanId: string, now: int, saveOk: bool) returns (r: Result<real>)
      modifies this
      ensures var o := LoanOps.CloseLoan(old(accounts), accountNo, hashPin(pin), loanId, now);
              r == Reply(o, saveOk) && accounts == Saved(o, saveOk, old(accounts))
      ensures old(StoreOk(accounts)) ==> StoreOk(accounts)
    {
      ghost var o := LoanOps.CloseLoan(accounts, accountNo, hashPin(pin), loanId, now);
      var found, data := FindUser(accountNo, pin);
      if found.None? {
        return Err(InvalidCredentials);
      }
      var i := found.value;
      var user := data[i];
      var index := LoanOps.LoanIndex(user, loanId);
      if index.None? {
        return Err(LoanNotFound);
      }
      var k := index.value;
      var loan := user.loans[k];
      if loan.status == Closed {
        return Err(LoanAlreadyClosed);
      }
      var outstanding := loan.outstanding;
      if user.balance < outstanding {
        return Err(InsufficientBalance);
      }
      user := user.(balance := user.balance - outstanding);
      loan := loan.(status := Closed, outstanding := 0.0);
      user := user.(loans := user.loans[k := loan]);
      user := user.(transactions := user.transactions +
        [Transaction(LoanClosure, outstanding, now, user.balance, "Loan Closed - " + loan.loanType)]);
      data := data[i := user];
      assert o == Done(outstanding, data);
      var ok := SaveData(data, saveOk);
      r := if ok then Ok(outstanding) else Err(SaveFailed);
      if StoreOk(old(accounts)) {
        Invariants.CloseLoanKeepsStore(old(accounts), accountNo, hashPin(pin), loanId, now);
      }
    }

    /** `add_savings_goal`. */
    method AddSavingsGoal(accountNo: string, pin: string, name: string, target: real, deadline: int, now: int,
                          saveOk: bool) returns (r: Result<()>)
      modifies this
      ensures var o := DirectoryOps.AddSavingsGoal(old(accounts), accountNo, hashPin(pin), name, target, deadline, now);
              r == Reply(o, saveOk) && accounts == Saved(o, saveOk, old(accounts))
      ensures old(StoreOk(accounts)) ==> StoreOk(accounts)
    {
      ghost var o := DirectoryOps.AddSavingsGoal(accounts, accountNo, hashPin(pin), name, target, deadline, now);
      var found, data := FindUser(accountNo, pin);
      if found.None? {
        return Err(InvalidCredentials);
      }
      var i := found.value;
      var user := data[i];
      var goal := SavingsGoal(|user.savingsGoals| + 1, name, target, 0.0, deadline, now, GoalActive);
      user := user.(savingsGoals := user.savingsGoals + [goal]);
      data := data[i := user];
      assert o == Done((), data);
      var ok := SaveData(data, saveOk);
      r := if ok then Ok(()) else Err(SaveFailed);
      if StoreOk(old(accounts)) {
        Invariants.AddSavingsGoalKeepsStore(old(accounts), accountNo, hashPin(pin), name, target, deadline, now);
      }
    }

    /** `contribute_to_goal`. */
    method ContributeToGoal(accountNo: string, pin: string, goalId: int, amount: real, now: int, saveOk: bool)
      returns (r: Result<SavingsGoal>)
      modifies this
      ensures var o := DirectoryOps.ContributeToGoal(old(accounts), accountNo, hashPin(pin), goalId, amount, now);
              r == Reply(o, saveOk) && accounts == Saved(o, saveOk, old(accounts))
      ensures old(StoreOk(accounts)) ==> StoreOk(accounts)
    {
      ghost var o := DirectoryOps.ContributeToGoal(accounts, accountNo, hashPin(pin), goalId, amount, now);
      var found, data := FindUser(accountNo, pin);
      if found.None? {
        return Err(InvalidCredentials);
      }
      var i := found.value;
      var user := data[i];
      if user.balance < amount {
        return Err(InsufficientBalance);
      }
      var index := DirectoryOps.GoalIndex(user, goalId);
      if index.None? {
        return Err(GoalNotFound);
      }
      var k := index.value;
      var goal := user.savingsGoals[k];
      if goal.status == GoalCompleted {
        return Err(GoalAlreadyCompleted);
      }
      ghost var before := goal;
      user := user.(balance := user.balance - amount);
      goal := goal.(currentAmount := goal.currentAmount + amount);
      if goal.currentAmount >= goal.targetAmount {
        goal := goal.(status := GoalCompleted);
      }
      assert goal == before.(currentAmount := goal.currentAmount, status := goal.status);
      user := user.(savingsGoals := user.savingsGoals[k := goal]);
      user := user.(transactions := user.transactions +
        [Transaction(SavingsContribution, amount, now, user.balance, "Saved for: " + goal.name)]);
      data := data[i := user];
      assert o == Done(goal, data);
      var ok := SaveData(data, saveOk);
      r := if ok then Ok(goal) else Err(SaveFailed);
      if StoreOk(old(accounts)) {
        Invariants.ContributeKeepsStore(old(accounts), accountNo, hashPin(pin), goalId, amount, now);
      }
    }

    /** `update_details`: each supplied field is written to the loaded copy in turn, so a
        rejection of a later field returns after earlier fields were changed on that copy,
        which is then never saved. */
    method UpdateDetails(accountNo: string, pin: string, name: string, email: string, mobile: string,
                         address: string, newPin: string, saveOk: bool) returns (r: Result<()>)
      modifies this
      ensures var o := ProfileOps.UpdateDetails(old(accounts), accountNo, hashPin(pin), name, email, mobile, address,
                                                newPin, hashPin(newPin));
              r == Reply(o, saveOk) && accounts == Saved(o, saveOk, old(accounts))
      ensures old(StoreOk(accounts)) ==> StoreOk(accounts)
    {
      ghost var o := ProfileOps.UpdateDetails(accounts, accountNo, hashPin(pin), name, email, mobile, address, newPin,
                                               hashPin(newPin));
      var found, data := FindUser(accountNo, pin);
      if found.None? {
        return Err(InvalidCredentials);
      }
      var i := found.value;
      var user := data[i];
      ghost var before := user;
      if name != "" {
        user := user.(name := name);
      }
      if email != "" {
        if !('@' in email) || !('.' in email) {
          return Err(InvalidEmail);
        }
        user := user.(email := email);
      }
      if mobile != "" {
        if |mobile| != 10 || !IsDigits(mobile) {
          return Err(InvalidMobile);
        }
        user := user.(mobile := mobile);
      }
      if address != "" {
        user := user.(address := address);
      }
      if newPin != "" && |newPin| == 4 && IsDigits(newPin) {
        user := user.(pinHash := hashPin(newPin));
      } else if newPin != "" {
        return Err(InvalidPin);
      }
      assert user == ProfileOps.Amended(before, name, email, mobile, address, newPin, hashPin(newPin));
      data := data[i := user];
      assert o == Done((), data);
      var ok := SaveData(data, saveOk);
      r := if ok then Ok(()) else Err(SaveFailed);
      if StoreOk(old(accounts)) {
        Invariants.UpdateDetailsKeepsStore(old(accounts), accountNo, hashPin(pin), name, email, mobile, address,
                                           newPin, hashPin(newPin));
      }
    }

    /** `delete_account`: `list.remove` of the authenticated account. */
    method DeleteAccount(accountNo: string, pin: string, saveOk: bool) returns (r: Result<()>)
      modifies this
      ensures var o := ProfileOps.DeleteAccount(old(accounts), accountNo, hashPin(pin));
              r == Reply(o, saveOk) && accounts == Saved(o, saveOk, old(accounts))
      ensures old(StoreOk(accounts)) ==> StoreOk(accounts)
    {
      ghost var o := ProfileOps.DeleteAccount(accounts, accountNo, hashPin(pin));
      var found, data := FindUser(accountNo, pin);
      if found.None? {
        return Err(InvalidCredentials);
      }
      var i := found.value;
      data := RemoveFirst(data, data[i]);
      assert o == Done((), data);
      var ok := SaveData(data, saveOk);
      r := if ok then Ok(()) else Err(SaveFailed);
      if StoreOk(old(accounts)) {
        Invariants.DeleteAccountKeepsStore(old(accounts), accountNo, hashPin(pin));
      }
    }

    /** `filter_transactions`: one pass over the account's records, skipping each record that
        an active criterion rejects. Nothing is saved. */
    method FilterTransactions(accountNo: string, pin: string, c: Criteria) returns (r: Result<seq<Transaction>>)
      ensures !Authenticated(accounts, accountNo, hashPin(pin)) ==> r == Err(InvalidCredentials)
      ensures Authenticated(accounts, accountNo, hashPin(pin)) ==>
                r == Ok(Filtered(Holder(accounts, accountNo, hashPin(pin)).transactions, c))
    {
      var found, data := FindUser(accountNo, pin);
      if found.None? {
        return Err(InvalidCredentials);
      }
      var transactions := data[found.value].transactions;
      var filtered := [];
      for k := 0 to |transactions|
        invariant filtered == Filtered(transactions[..k], c)
      {
        var txn := transactions[k];
        KeepStep(transactions, k, Test(c));
        if c.startDate.Some? && txn.date < c.startDate.value {
          continue;
        }
        if c.endDate.Some? && txn.date > c.endDate.value {
          continue;
        }
        if TypeActive(c) && txn.kind.Name() != c.txnType.value {
          continue;
        }
        if BoundActive(c.minAmount) && txn.amount < c.minAmount.value {
          continue;
        }
        if BoundActive(c.maxAmount) && txn.amount > c.maxAmount.value {
          continue;
        }
        filtered := filtered + [txn];
      }
      assert transactions[..|transactions|] == transactions;
      return Ok(filtered);
    }
  }
}

/** The store invariants every operation keeps: non-negative balances that equal the
    signed sum of their records and match the last snapshot, bills and goals numbered
    1..n, settled loans and reached goals (`StoreOk`); and the one-way evolution of every
    account (`StoreEvolves`): append-only history, loans closed for good, goals completed
    for good. Each lemma assumes the loaded store already satisfied `StoreOk`. */
module Invariants {

  import opened Records
  import opened Outcomes
  import opened Registry
  import opened Ledger
  import opened Identifiers
  import CashOps
  import LoanOps
  import ProfileOps
  import DirectoryOps

  ghost predicate StoreEvolves(s: Store, s': Store) {
    |s'| == |s| && forall j :: 0 <= j < |s| ==> Evolves(s[j], s'[j])
  }

  /** Changing one account, consistently and along its one-way evolution, keeps the store
      consistent and evolving. */
  lemma ReplaceOne(s: Store, s': Store, i: int)
    requires StoreOk(s)
    requires OnlyChanged(s, s', i)
    requires AccountOk(s'[i])
    requires Evolves(s[i], s'[i])
    ensures StoreOk(s')
    ensures StoreEvolves(s, s')
  {
    forall j | 0 <= j < |s|
      ensures Evolves(s[j], s'[j])
    {
      if j != i {
        assert s'[j] == s[j];
      }
    }
  }

  lemma DepositKeepsStore(s: Store, accountNo: string, pinHash: string, amount: real, now: int)
    requires StoreOk(s)
    ensures var o := CashOps.Deposit(s, accountNo, pinHash, amount, now);
            o.Done? ==> StoreOk(o.store) && StoreEvolves(s, o.store)
  {
    var o := CashOps.Deposit(s, accountNo, pinHash, amount, now);
    if o.Done? {
      var i := Who(s, accountNo, pinHash);
      PostedKeepsLedger(s[i], o.store[i], TxKind.Deposit, amount, now, "Cash Deposit");
      ReplaceOne(s, o.store, i);
    }
  }

  lemma WithdrawKeepsStore(s: Store, accountNo: string, pinHash: string, amount: real, now: int)
    requires StoreOk(s)
    ensures var o := CashOps.Withdraw(s, accountNo, pinHash, amount, now);
            o.Done? ==> StoreOk(o.store) && StoreEvolves(s, o.store)
  {
    var o := CashOps.Withdraw(s, accountNo, pinHash, amount, now);
    if o.Done? {
      var i := Who(s, accountNo, pinHash);
      PostedKeepsLedger(s[i], o.store[i], Withdrawal, amount, now, "Cash Withdrawal");
      ReplaceOne(s, o.store, i);
    }
  }

  lemma TransferKeepsStore(s: Store, fromAccount: string, pinHash: string, toAccount: string, amount: real,
                           description: string, now: int)
    requires StoreOk(s)
    ensures var o := CashOps.Transfer(s, fromAccount, pinHash, toAccount, amount, description, now);
            o.Done? ==> StoreOk(o.store) && StoreEvolves(s, o.store)
  {
    var o := CashOps.Transfer(s, fromAccount, pinHash, toAccount, amount, description, now);
    if o.Done? {
      var i, j := Who(s, fromAccount, pinHash), FindByAccount(s, toAccount).value;
      PostedKeepsLedger(s[i], o.store[i], TransferOut(toAccount, s[j].name), amount, now,
                        CashOps.TransferDescription(description));
      ReplaceOne(s, o.store, i);
    }
  }

  lemma PayBillKeepsStore(s: Store, accountNo: string, pinHash: string, billType: string, provider: string,
                          billNumber: string, amount: real, now: int)
    requires StoreOk(s)
    ensures var o := CashOps.PayBill(s, accountNo, pinHash, billType, provider, billNumber, amount, now);
            o.Done? ==> StoreOk(o.store) && StoreEvolves(s, o.store)
  {
    var o := CashOps.PayBill(s, accountNo, pinHash, billType, provider, billNumber, amount, now);
    if o.Done? {
      var i := Who(s, accountNo, pinHash);
      PostedKeepsLedger(s[i], o.store[i], BillPayment, amount, now, billType + " - " + provider);
      ReplaceOne(s, o.store, i);
    }
  }

  lemma ApplyLoanKeepsStore(s: Store, accountNo: string, pinHash: string, loanType: string, amount: real,
                            tenureMonths: int, purpose: string, calculateEmi: (real, real, int) -> Option<LoanOps.EmiQuote>,
                            loanDigits: seq<Digit>, now: int)
    requires StoreOk(s)
    requires |loanDigits| == 8
    ensures var o := LoanOps.ApplyLoan(s, accountNo, pinHash, loanType, amount, tenureMonths, purpose, calculateEmi,
                                       loanDigits, now);
            o.Done? ==> StoreOk(o.store) && StoreEvolves(s, o.store)
  {
    var o := LoanOps.ApplyLoan(s, accountNo, pinHash, loanType, amount, tenureMonths, purpose, calculateEmi,
                               loanDigits, now);
    if o.Done? {
      var i := Who(s, accountNo, pinHash);
      PostedKeepsLedger(s[i], o.store[i], LoanCredit, amount, now, "Loan Disbursed - " + loanType);
      ReplaceOne(s, o.store, i);
    }
  }

  lemma PayEmiKeepsStore(s: Store, accountNo: string, pinHash: string, loanId: string, now: int)
    requires StoreOk(s)
    ensures var o := LoanOps.PayEmi(s, accountNo, pinHash, loanId, now);
            o.Done? ==> StoreOk(o.store) && StoreEvolves(s, o.store)
  {
    var o := LoanOps.PayEmi(s, accountNo, pinHash, loanId, now);
    if o.Done? {
      var i := Who(s, accountNo, pinHash);
      var l := s[i].loans[LoanOps.LoanIndex(s[i], loanId).value];
      PostedKeepsLedger(s[i], o.store[i], EmiPayment, l.emi, now, "EMI Paid - " + l.loanType);
      ReplaceOne(s, o.store, i);
    }
  }

  lemma CloseLoanKeepsStore(s: Store, accountNo: string, pinHash: string, loanId: string, now: int)
    requires StoreOk(s)
    ensures var o := LoanOps.CloseLoan(s, accountNo, pinHash, loanId, now);
            o.Done? ==> StoreOk(o.store) && StoreEvolves(s, o.store)
  {
    var o := LoanOps.CloseLoan(s, accountNo, pinHash, loanId, now);
    if o.Done? {
      var i := Who(s, accountNo, pinHash);
      var l := s[i].loans[LoanOps.LoanIndex(s[i], loanId).value];
      PostedKeepsLedger(s[i], o.store[i], LoanClosure, l.outstanding, now, "Loan Closed - " + l.loanType);
      ReplaceOne(s, o.store, i);
    }
  }

  lemma ContributeKeepsStore(s: Store, accountNo: string, pinHash: string, goalId: int, amount: real, now: int)
    requires StoreOk(s)
    ensures var o := DirectoryOps.ContributeToGoal(s, accountNo, pinHash, goalId, amount, now);
            o.Done? ==> StoreOk(o.store) && StoreEvolves(s, o.store)
  {
    var o := DirectoryOps.ContributeToGoal(s, accountNo, pinHash, goalId, amount, now);
    if o.Done? {
      var i := Who(s, accountNo, pinHash);
      var g := s[i].savingsGoals[DirectoryOps.GoalIndex(s[i], goalId).value];
      PostedKeepsLedger(s[i], o.store[i], SavingsContribution, amount, now, "Saved for: " + g.name);
      ReplaceOne(s, o.store, i);
    }
  }

  lemma AddSavingsGoalKeepsStore(s: Store, accountNo: string, pinHash: string, name: string, target: real,
                                 deadline: int, now: int)
    requires StoreOk(s)
    ensures var o := DirectoryOps.AddSavingsGoal(s, accountNo, pinHash, name, target, deadline, now);
            o.Done? ==> StoreOk(o.store) && StoreEvolves(s, o.store)
  {
    var o := DirectoryOps.AddSavingsGoal(s, accountNo, pinHash, name, target, deadline, now);
    if o.Done? {
      ReplaceOne(s, o.store, Who(s, accountNo, pinHash));
    }
  }

  lemma AddBeneficiaryKeepsStore(s: Store, accountNo: string, pinHash: string, target: string, nickname: string,
                                 now: int)
    requires StoreOk(s)
    ensures var o := DirectoryOps.AddBeneficiary(s, accountNo, pinHash, target, nickname, now);
            o.Done? ==> StoreOk(o.store) && StoreEvolves(s, o.store)
  {
    var o := DirectoryOps.AddBeneficiary(s, accountNo, pinHash, target, nickname, now);
    if o.Done? {
      ReplaceOne(s, o.store, Who(s, accountNo, pinHash));
    }
  }

  lemma RemoveBeneficiaryKeepsStore(s: Store, accountNo: string, pinHash: string, id: int)
    requires StoreOk(s)
    ensures var o := DirectoryOps.RemoveBeneficiary(s, accountNo, pinHash, id);
            o.Done? ==> StoreOk(o.store) && StoreEvolves(s, o.store)
  {
    var o := DirectoryOps.RemoveBeneficiary(s, accountNo, pinHash, id);
    if o.Done? {
      ReplaceOne(s, o.store, Who(s, accountNo, pinHash));
    }
  }

  lemma UpdateDetailsKeepsStore(s: Store, accountNo: string, pinHash: string, name: string, email: string,
                                mobile: string, address: string, newPin: string, newPinHash: string)
    requires StoreOk(s)
    ensures var o := ProfileOps.UpdateDetails(s, accountNo, pinHash, name, email, mobile, address, newPin, newPinHash);
            o.Done? ==> StoreOk(o.store) && StoreEvolves(s, o.store)
  {
    var o := ProfileOps.UpdateDetails(s, accountNo, pinHash, name, email, mobile, address, newPin, newPinHash);
    if o.Done? {
      ReplaceOne(s, o.store, Who(s, accountNo, pinHash));
    }
  }

  lemma CreateAccountKeepsStore(s: Store, name: string, age: int, email: string, mobile: string, address: string,
                                pin: string, pinHash: string, draws: ProfileOps.OpeningDraws, now: int)
    requires StoreOk(s)
    requires draws.Complete()
    ensures var o := ProfileOps.CreateAccount(s, name, age, email, mobile, address, pin, pinHash, draws, now);
            o.Done? ==> StoreOk(o.store) && o.store[..|s|] == s
  {
    var o := ProfileOps.CreateAccount(s, name, age, email, mobile, address, pin, pinHash, draws, now);
    if o.Done? {
      forall j | 0 <= j < |o.store|
        ensures AccountOk(o.store[j])
      {
        if j < |s| {
          assert o.store[j] == o.store[..|s|][j];
        }
      }
    }
  }

  lemma DeleteAccountKeepsStore(s: Store, accountNo: string, pinHash: string)
    requires StoreOk(s)
    ensures var o := ProfileOps.DeleteAccount(s, accountNo, pinHash);
            o.Done? ==> StoreOk(o.store)
  {
    var o := ProfileOps.DeleteAccount(s, accountNo, pinHash);
    if o.Done? {
      var i := Who(s, accountNo, pinHash);
      forall j | 0 <= j < |o.store|
        ensures AccountOk(o.store[j])
      {
        if j < i {
          assert o.store[j] == s[j];
        } else {
          assert o.store[j] == s[j + 1];
        }
      }
    }
  }
}

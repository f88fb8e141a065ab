/** Properties that relate several operations or several accounts: where the money goes,
    what a later call sees of an earlier one, and which states are final. */
module Properties {

  import opened Records
  import opened Outcomes
  import opened Registry
  import opened Ledger
  import opened Identifiers
  import CashOps
  import LoanOps
  import ProfileOps
  import DirectoryOps

  /** The money held by all accounts of a store. */
  function TotalBalance(s: Store): real {
    if s == [] then 0.0 else TotalBalance(s[..|s| - 1]) + s[|s| - 1].balance
  }

  /** Changing one account changes the total by exactly that account's change. */
  lemma {:induction false} TotalAfterReplace(s: Store, s': Store, i: int)
    requires OnlyChanged(s, s', i)
    ensures TotalBalance(s') == TotalBalance(s) - s[i].balance + s'[i].balance
  {
    var n := |s| - 1;
    if i == n {
      assert s'[..n] == s[..n];
    } else {
      assert OnlyChanged(s[..n], s'[..n], i);
      TotalAfterReplace(s[..n], s'[..n], i);
      assert s'[n] == s[n];
    }
  }

  /** A deposit creates exactly its amount of money in the store. */
  lemma DepositRaisesTotal(s: Store, accountNo: string, pinHash: string, amount: real, now: int)
    ensures var o := CashOps.Deposit(s, accountNo, pinHash, amount, now);
            o.Done? ==> TotalBalance(o.store) == TotalBalance(s) + amount
  {
    var o := CashOps.Deposit(s, accountNo, pinHash, amount, now);
    if o.Done? {
      TotalAfterReplace(s, o.store, Who(s, accountNo, pinHash));
    }
  }

  /** A withdrawal removes exactly its amount of money from the store. */
  lemma WithdrawLowersTotal(s: Store, accountNo: string, pinHash: string, amount: real, now: int)
    ensures var o := CashOps.Withdraw(s, accountNo, pinHash, amount, now);
            o.Done? ==> TotalBalance(o.store) == TotalBalance(s) - amount
  {
    var o := CashOps.Withdraw(s, accountNo, pinHash, amount, now);
    if o.Done? {
      TotalAfterReplace(s, o.store, Who(s, accountNo, pinHash));
    }
  }

  /** A transfer is not conservative: the sender loses the amount and the recipient's saved
      account gains nothing, so the store holds `amount` less money afterwards. */
  lemma TransferLosesAmount(s: Store, fromAccount: string, pinHash: string, toAccount: string, amount: real,
                            description: string, now: int)
    ensures var o := CashOps.Transfer(s, fromAccount, pinHash, toAccount, amount, description, now);
            o.Done? ==>
              && TotalBalance(o.store) == TotalBalance(s) - amount < TotalBalance(s)
              && var j := FindByAccount(s, toAccount).value;
                 o.store[j].balance == s[j].balance
  {
    var o := CashOps.Transfer(s, fromAccount, pinHash, toAccount, amount, description, now);
    if o.Done? {
      TotalAfterReplace(s, o.store, Who(s, fromAccount, pinHash));
    }
  }

  /** A store whose authenticated account was changed without touching its number, its PIN
      hash or any earlier account authenticates the same caller to the same account. */
  lemma SameHolder(s: Store, s': Store, accountNo: string, pinHash: string)
    requires Authenticated(s, accountNo, pinHash)
    requires OnlyChanged(s, s', Who(s, accountNo, pinHash))
    requires Authenticates(s'[Who(s, accountNo, pinHash)], accountNo, pinHash)
    ensures Authenticated(s', accountNo, pinHash)
    ensures Who(s', accountNo, pinHash) == Who(s, accountNo, pinHash)
  {
    var i := Who(s, accountNo, pinHash);
    assert 0 <= i < |s'| && Authenticates(s'[i], accountNo, pinHash);
    forall j | 0 <= j < i
      ensures !Authenticates(s'[j], accountNo, pinHash)
    {
      assert s'[j] == s[j];
    }
  }

  /** Loan lookup depends only on the loan ids, in order. */
  lemma SameLoanIndex(a: Account, a': Account, loanId: string)
    requires |a'.loans| == |a.loans|
    requires forall k :: 0 <= k < |a.loans| ==> a'.loans[k].loanId == a.loans[k].loanId
    ensures LoanOps.LoanIndex(a', loanId) == LoanOps.LoanIndex(a, loanId)
  {
    var r := LoanOps.LoanIndex(a, loanId);
    if r.Some? {
      assert a'.loans[r.value].loanId == loanId;
    }
  }

  /** Withdrawing what was just deposited restores the balance, leaving two records behind. */
  lemma DepositThenWithdraw(s: Store, accountNo: string, pinHash: string, amount: real, now: int, later: int)
    requires StoreOk(s)
    ensures var d := CashOps.Deposit(s, accountNo, pinHash, amount, now);
            d.Done? ==>
              var w := CashOps.Withdraw(d.store, accountNo, pinHash, amount, later);
              var i := Who(s, accountNo, pinHash);
              && w.Done?
              && OnlyChanged(s, w.store, i)
              && w.store[i].balance == s[i].balance
              && |w.store[i].transactions| == |s[i].transactions| + 2
  {
    var d := CashOps.Deposit(s, accountNo, pinHash, amount, now);
    if d.Done? {
      SameHolder(s, d.store, accountNo, pinHash);
    }
  }

  /** Closing a loan is final: afterwards both an EMI and another closure of it are rejected. */
  lemma CloseLoanIsFinal(s: Store, accountNo: string, pinHash: string, loanId: string, now: int, later: int)
    ensures var o := LoanOps.CloseLoan(s, accountNo, pinHash, loanId, now);
            o.Done? ==>
              && LoanOps.PayEmi(o.store, accountNo, pinHash, loanId, later) == Rejected(LoanAlreadyClosed)
              && LoanOps.CloseLoan(o.store, accountNo, pinHash, loanId, later) == Rejected(LoanAlreadyClosed)
  {
    var o := LoanOps.CloseLoan(s, accountNo, pinHash, loanId, now);
    if o.Done? {
      var i := Who(s, accountNo, pinHash);
      SameHolder(s, o.store, accountNo, pinHash);
      SameLoanIndex(s[i], o.store[i], loanId);
    }
  }

  /** An EMI that closes the loan is the last one: afterwards the loan is rejected by both
      `pay_emi` and `close_loan`. */
  lemma LastEmiIsFinal(s: Store, accountNo: string, pinHash: string, loanId: string, now: int, later: int)
    ensures var o := LoanOps.PayEmi(s, accountNo, pinHash, loanId, now);
            o.Done? && o.value.status == Closed ==>
              && LoanOps.PayEmi(o.store, accountNo, pinHash, loanId, later) == Rejected(LoanAlreadyClosed)
              && LoanOps.CloseLoan(o.store, accountNo, pinHash, loanId, later) == Rejected(LoanAlreadyClosed)
  {
    var o := LoanOps.PayEmi(s, accountNo, pinHash, loanId, now);
    if o.Done? && o.value.status == Closed {
      var i := Who(s, accountNo, pinHash);
      SameHolder(s, o.store, accountNo, pinHash);
      SameLoanIndex(s[i], o.store[i], loanId);
    }
  }

  /** No two accounts share an account number. Nothing enforces this: opening an account
      does not check the drawn number against the store. */
  ghost predicate UniqueNumbers(s: Store) {
    forall j, k :: 0 <= j < |s| && 0 <= k < |s| && s[j].accountNo == s[k].accountNo ==> j == k
  }

  /** Opening an account under an unused number makes it reachable with the PIN it was opened
      with, and keeps numbers unique. */
  lemma CreateThenLogin(s: Store, name: string, age: int, email: string, mobile: string, address: string,
                        pin: string, pinHash: string, draws: ProfileOps.OpeningDraws, now: int)
    requires draws.Complete()
    requires !HasAccount(s, AccountNumber(draws.letters, draws.digits))
    ensures var o := ProfileOps.CreateAccount(s, name, age, email, mobile, address, pin, pinHash, draws, now);
            o.Done? ==>
              && FindIndex(o.store, o.value, pinHash) == Some(|s|)
              && (UniqueNumbers(s) ==> UniqueNumbers(o.store))
  {
    var o := ProfileOps.CreateAccount(s, name, age, email, mobile, address, pin, pinHash, draws, now);
    if o.Done? {
      forall j | 0 <= j < |s|
        ensures o.store[j].accountNo != o.value
      {
        assert o.store[j] == o.store[..|s|][j];
      }
      var r := FindIndex(o.store, o.value, pinHash);
      assert Authenticates(o.store[|s|], o.value, pinHash);
      assert r.value == |s|;
    }
  }

  /** With unique account numbers, a deleted account can no longer be reached with any PIN. */
  lemma DeleteThenLoginFails(s: Store, accountNo: string, pinHash: string)
    requires UniqueNumbers(s)
    ensures var o := ProfileOps.DeleteAccount(s, accountNo, pinHash);
            o.Done? ==>
              && !HasAccount(o.store, accountNo)
              && (forall h :: FindIndex(o.store, accountNo, h).None?)
              && UniqueNumbers(o.store)
  {
    var o := ProfileOps.DeleteAccount(s, accountNo, pinHash);
    if o.Done? {
      var i := Who(s, accountNo, pinHash);
      forall j | 0 <= j < |o.store|
        ensures o.store[j].accountNo != accountNo
      {
        var j0 := if j < i then j else j + 1;
        assert o.store[j] == s[j0] && j0 != i;
      }
      forall j, k | 0 <= j < |o.store| && 0 <= k < |o.store| && o.store[j].accountNo == o.store[k].accountNo
        ensures j == k
      {
        var j0 := if j < i then j else j + 1;
        var k0 := if k < i then k else k + 1;
        assert o.store[j] == s[j0] && o.store[k] == s[k0];
      }
    }
  }

  /** Removing entry 1 from a directory numbered 1..n leaves entries 2..n, in order. */
  lemma {:induction false} RemoveFirstNumbered(bs: seq<Beneficiary>)
    requires |bs| >= 1
    requires forall k :: 0 <= k < |bs| ==> bs[k].id == k + 1
    ensures DirectoryOps.WithoutId(bs, 1) == bs[1..]
  {
    var n := |bs| - 1;
    if n > 0 {
      RemoveFirstNumbered(bs[..n]);
      assert bs[..n][1..] == bs[1..n];
      assert bs[1..n] + [bs[n]] == bs[1..];
    }
  }

  /** Beneficiary ids are the count plus one, not fresh: after removing entry 1 from a
      directory numbered 1..n (n >= 2), the next entry added gets id n again, so two entries
      share an id and a later removal by that id drops both. */
  lemma RemoveThenAddReusesId(s: Store, accountNo: string, pinHash: string, target: string, nickname: string,
                              now: int)
    requires Authenticated(s, accountNo, pinHash)
    requires var bs := Holder(s, accountNo, pinHash).beneficiaries;
             |bs| >= 2 && forall k :: 0 <= k < |bs| ==> bs[k].id == k + 1
    ensures var r := DirectoryOps.RemoveBeneficiary(s, accountNo, pinHash, 1);
            var o := DirectoryOps.AddBeneficiary(r.store, accountNo, pinHash, target, nickname, now);
            o.Done? ==>
              var bs' := o.store[Who(s, accountNo, pinHash)].beneficiaries;
              && |bs'| == |Holder(s, accountNo, pinHash).beneficiaries|
              && bs'[|bs'| - 1].id == bs'[|bs'| - 2].id
  {
    var i := Who(s, accountNo, pinHash);
    var r := DirectoryOps.RemoveBeneficiary(s, accountNo, pinHash, 1);
    RemoveFirstNumbered(s[i].beneficiaries);
    SameHolder(s, r.store, accountNo, pinHash);
  }
}

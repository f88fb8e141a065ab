/** The loan state machine: application (full disbursement up front), one EMI
    payment (one reducing-balance amortization step) and closure in full.
    A loan goes from Active to Closed and never back. */
module LoanOps {

  import opened Records
  import opened Outcomes
  import opened Registry
  import opened Ledger
  import opened Sequences
  import opened Identifiers

  const MinLoan: real := 10000.0
  const MaxLoan: real := 5000000.0
  const DefaultRate: real := 12.0
  /** Days between two EMI due dates. */
  const EmiInterval: int := 30

  /** Annual interest rate, in percent, by loan category. */
  const Rates: map<string, real> :=
    map["Personal Loan" := 12.5, "Home Loan" := 8.5, "Car Loan" := 10.0, "Education Loan" := 9.0]

  /** `rates.get(loan_type, 12.0)`. */
  function RateFor(loanType: string): (rate: real)
    ensures loanType in Rates ==> rate == Rates[loanType]
    ensures loanType !in Rates ==> rate == DefaultRate
    ensures 8.5 <= rate <= 12.5
  {
    if loanType in Rates then Rates[loanType] else DefaultRate
  }

  /** What `calculate_emi(principal, rate, tenure)` returns: the instalment, the total
      payable and the total interest, each rounded to cents. */
  datatype EmiQuote = EmiQuote(emi: real, totalAmount: real, totalInterest: real)

  /** `(1 + r) ** n` for a whole number of months. */
  function Growth(r: real, n: nat): (g: real)
    ensures r > 0.0 ==> g >= 1.0
    ensures r > 0.0 && n > 0 ==> g > 1.0
  {
    if n == 0 then 1.0
    else
      var g := Growth(r, n - 1);
      assert r > 0.0 ==> (1.0 + r) * g >= g;
      (1.0 + r) * g
  }

  /** `pow(1 + r, t)` for any whole tenure `t`. */
  function Power(r: real, t: int): real
    requires r > 0.0
  {
    if t >= 0 then Growth(r, t) else 1.0 / Growth(r, -t)
  }

  /** The denominator `pow(1 + r, t) - 1` of the EMI formula, with r = rate / 1200,
      is zero exactly when the tenure is zero: for every rate of the table the
      formula is defined for every other tenure, negative ones included. */
  lemma EmiDenominatorZeroIff(rate: real, t: int)
    requires rate > 0.0
    ensures Power(rate / 1200.0, t) - 1.0 == 0.0 <==> t == 0
  {
    var r := rate / 1200.0;
    if t < 0 {
      var g := Growth(r, -t);
      assert g > 1.0;
      assert 1.0 / g < 1.0;
    }
  }

  /** The first loan of the account with this id. */
  function LoanIndex(a: Account, loanId: string): (r: Option<nat>)
    ensures r.Some? ==> r.value < |a.loans| && a.loans[r.value].loanId == loanId
    ensures r.None? <==> forall k :: 0 <= k < |a.loans| ==> a.loans[k].loanId != loanId
    ensures r.Some? ==> forall k :: 0 <= k < r.value ==> a.loans[k].loanId != loanId
  {
    FirstIndex(a.loans, (l: Loan) => l.loanId == loanId)
  }

  /** The interest part of this month's instalment. */
  function MonthlyInterest(l: Loan): real {
    l.outstanding * l.interestRate / 1200.0
  }

  /** One EMI applied to a loan: one more instalment paid, the outstanding principal
      reduced by the instalment's principal part (never below zero), and the loan closed
      exactly when all instalments are paid or nothing is left; otherwise the next due
      date moves 30 days on. */
  function AfterEmi(l: Loan): (l': Loan)
    requires l.status == Active
    ensures l'.paidEmis == l.paidEmis + 1
    ensures var remaining := l.outstanding - (l.emi - MonthlyInterest(l));
      && (l'.status == Closed <==> l.paidEmis + 1 >= l.tenureMonths || remaining <= 0.0)
      && (l'.status == Closed ==> l'.outstanding == 0.0 && l'.nextEmiDate == l.nextEmiDate)
      && (l'.status == Active ==> l'.outstanding == remaining > 0.0 && l'.nextEmiDate == l.nextEmiDate + EmiInterval)
    ensures l' == l.(paidEmis := l'.paidEmis, outstanding := l'.outstanding, status := l'.status,
                     nextEmiDate := l'.nextEmiDate)
  {
    var paid := l.paidEmis + 1;
    var principalPart := l.emi - MonthlyInterest(l);
    var left := if l.outstanding - principalPart > 0.0 then l.outstanding - principalPart else 0.0;
    if paid >= l.tenureMonths || left <= 0.0 then l.(paidEmis := paid, status := Closed, outstanding := 0.0)
    else l.(paidEmis := paid, outstanding := left, nextEmiDate := l.nextEmiDate + EmiInterval)
  }

  /** `apply_loan`: credentials, then 10000 <= amount <= 5000000, then `calculate_emi`,
      which raises before anything is saved: always for a zero tenure (division by zero,
      see `EmiDenominatorZeroIff`), and wherever the floating-point `pow` overflows, which
      `calculateEmi` reports as `None`. The new loan is Active, owes its whole principal and
      has paid nothing; the principal is credited at once. */
  function ApplyLoan(s: Store, accountNo: string, pinHash: string, loanType: string, amount: real,
                     tenureMonths: int, purpose: string, calculateEmi: (real, real, int) -> Option<EmiQuote>,
                     loanDigits: seq<Digit>, now: int): (o: Outcome<(string, real), Store>)
    requires |loanDigits| == 8
    ensures !Authenticated(s, accountNo, pinHash) ==> o == Rejected(InvalidCredentials)
    ensures Authenticated(s, accountNo, pinHash) && amount < MinLoan ==> o == Rejected(LoanBelowMinimum)
    ensures Authenticated(s, accountNo, pinHash) && amount > MaxLoan ==> o == Rejected(LoanAboveMaximum)
    ensures Authenticated(s, accountNo, pinHash) && MinLoan <= amount <= MaxLoan && tenureMonths == 0
            ==> o == Rejected(EmiUndefined)
    ensures Authenticated(s, accountNo, pinHash) && MinLoan <= amount <= MaxLoan
            && calculateEmi(amount, RateFor(loanType), tenureMonths).None?
            ==> o == Rejected(EmiUndefined)
    ensures o.Done? <==> Authenticated(s, accountNo, pinHash) && MinLoan <= amount <= MaxLoan && tenureMonths != 0
                         && calculateEmi(amount, RateFor(loanType), tenureMonths).Some?
    ensures o.Done? ==>
      var i := Who(s, accountNo, pinHash);
      var rate := RateFor(loanType);
      var q := calculateEmi(amount, rate, tenureMonths).value;
      && OnlyChanged(s, o.store, i)
      && var loans := o.store[i].loans;
      && |loans| == |s[i].loans| + 1
      && loans[..|s[i].loans|] == s[i].loans
      && loans[|s[i].loans|] == Loan(LoanId(loanDigits), loanType, amount, rate, tenureMonths, q.emi, q.totalAmount,
                                     q.totalInterest, amount, 0, purpose, now, Active, now + EmiInterval)
      && IsLoanId(loans[|s[i].loans|].loanId)
      && o.store[i].balance == s[i].balance + amount
      && Posted(s[i], o.store[i], LoanCredit, amount, now, "Loan Disbursed - " + loanType)
      && o.store[i] == s[i].(balance := o.store[i].balance, transactions := o.store[i].transactions, loans := loans)
      && o.value == (LoanId(loanDigits), q.emi)
  {
    match FindIndex(s, accountNo, pinHash)
    case None => Rejected(InvalidCredentials)
    case Some(i) =>
      if amount < MinLoan then Rejected(LoanBelowMinimum)
      else if amount > MaxLoan then Rejected(LoanAboveMaximum)
      else if tenureMonths == 0 || calculateEmi(amount, RateFor(loanType), tenureMonths).None? then Rejected(EmiUndefined)
      else
        var rate := RateFor(loanType);
        var q := calculateEmi(amount, rate, tenureMonths).value;
        var loan := Loan(LoanId(loanDigits), loanType, amount, rate, tenureMonths, q.emi, q.totalAmount,
                         q.totalInterest, amount, 0, purpose, now, Active, now + EmiInterval);
        var withLoan := s[i].(loans := s[i].loans + [loan]);
        var user := Record(withLoan.(balance := withLoan.balance + amount), LoanCredit, amount, now,
                           "Loan Disbursed - " + loanType);
        Done((loan.loanId, q.emi), s[i := user])
  }

  /** `pay_emi`: credentials, then the loan exists, is not Closed, and the balance covers
      the EMI; debit the EMI, advance the loan one amortization step, and record it. */
  function PayEmi(s: Store, accountNo: string, pinHash: string, loanId: string, now: int): (o: Outcome<Loan, Store>)
    ensures !Authenticated(s, accountNo, pinHash) ==> o == Rejected(InvalidCredentials)
    ensures Authenticated(s, accountNo, pinHash) && LoanIndex(Holder(s, accountNo, pinHash), loanId).None?
            ==> o == Rejected(LoanNotFound)
    ensures (Authenticated(s, accountNo, pinHash) && LoanIndex(Holder(s, accountNo, pinHash), loanId).Some?
             && Holder(s, accountNo, pinHash).loans[LoanIndex(Holder(s, accountNo, pinHash), loanId).value].status == Closed)
            ==> o == Rejected(LoanAlreadyClosed)
    ensures (Authenticated(s, accountNo, pinHash) && LoanIndex(Holder(s, accountNo, pinHash), loanId).Some?
             && var l := Holder(s, accountNo, pinHash).loans[LoanIndex(Holder(s, accountNo, pinHash), loanId).value];
                l.status == Active && Holder(s, accountNo, pinHash).balance < l.emi)
            ==> o == Rejected(InsufficientBalance)
    ensures o.Done? <==>
      && Authenticated(s, accountNo, pinHash)
      && LoanIndex(Holder(s, accountNo, pinHash), loanId).Some?
      && var l := Holder(s, accountNo, pinHash).loans[LoanIndex(Holder(s, accountNo, pinHash), loanId).value];
         l.status == Active && l.emi <= Holder(s, accountNo, pinHash).balance
    ensures o.Done? ==>
      var i := Who(s, accountNo, pinHash);
      var k := LoanIndex(s[i], loanId).value;
      var l := s[i].loans[k];
      && OnlyChanged(s, o.store, i)
      && o.store[i].balance == s[i].balance - l.emi >= 0.0
      && Posted(s[i], o.store[i], EmiPayment, l.emi, now, "EMI Paid - " + l.loanType)
      && o.store[i].loans == s[i].loans[k := AfterEmi(l)]
      && o.store[i] == s[i].(balance := o.store[i].balance, transactions := o.store[i].transactions,
                             loans := o.store[i].loans)
      && o.value == AfterEmi(l)
  {
    match FindIndex(s, accountNo, pinHash)
    case None => Rejected(InvalidCredentials)
    case Some(i) =>
      match LoanIndex(s[i], loanId)
      case None => Rejected(LoanNotFound)
      case Some(k) =>
        var l := s[i].loans[k];
        if l.status == Closed then Rejected(LoanAlreadyClosed)
        else if s[i].balance < l.emi then Rejected(InsufficientBalance)
        else
          var debited := s[i].(balance := s[i].balance - l.emi);
          var user := Record(debited.(loans := debited.loans[k := AfterEmi(l)]), EmiPayment, l.emi, now,
                             "EMI Paid - " + l.loanType);
          Done(AfterEmi(l), s[i := user])
  }

  /** `close_loan`: credentials, then the loan exists, is not Closed, and the balance covers
      the outstanding principal; debit exactly that, close the loan and record it. */
  function CloseLoan(s: Store, accountNo: string, pinHash: string, loanId: string, now: int): (o: Outcome<real, Store>)
    ensures !Authenticated(s, accountNo, pinHash) ==> o == Rejected(InvalidCredentials)
    ensures Authenticated(s, accountNo, pinHash) && LoanIndex(Holder(s, accountNo, pinHash), loanId).None?
            ==> o == Rejected(LoanNotFound)
    ensures (Authenticated(s, accountNo, pinHash) && LoanIndex(Holder(s, accountNo, pinHash), loanId).Some?
             && Holder(s, accountNo, pinHash).loans[LoanIndex(Holder(s, accountNo, pinHash), loanId).value].status == Closed)
            ==> o == Rejected(LoanAlreadyClosed)
    ensures (Authenticated(s, accountNo, pinHash) && LoanIndex(Holder(s, accountNo, pinHash), loanId).Some?
             && var l := Holder(s, accountNo, pinHash).loans[LoanIndex(Holder(s, accountNo, pinHash), loanId).value];
                l.status == Active && Holder(s, accountNo, pinHash).balance < l.outstanding)
            ==> o == Rejected(InsufficientBalance)
    ensures o.Done? <==>
      && Authenticated(s, accountNo, pinHash)
      && LoanIndex(Holder(s, accountNo, pinHash), loanId).Some?
      && var l := Holder(s, accountNo, pinHash).loans[LoanIndex(Holder(s, accountNo, pinHash), loanId).value];
         l.status == Active && l.outstanding <= Holder(s, accountNo, pinHash).balance
    ensures o.Done? ==>
      var i := Who(s, accountNo, pinHash);
      var k := LoanIndex(s[i], loanId).value;
      var l := s[i].loans[k];
      && OnlyChanged(s, o.store, i)
      && o.store[i].balance == s[i].balance - l.outstanding >= 0.0
      && Posted(s[i], o.store[i], LoanClosure, l.outstanding, now, "Loan Closed - " + l.loanType)
      && o.store[i].loans == s[i].loans[k := l.(status := Closed, outstanding := 0.0)]
      && o.store[i] == s[i].(balance := o.store[i].balance, transactions := o.store[i].transactions,
                             loans := o.store[i].loans)
      && o.value == l.outstanding
  {
    match FindIndex(s, accountNo, pinHash)
    case None => Rejected(InvalidCredentials)
    case Some(i) =>
      match LoanIndex(s[i], loanId)
      case None => Rejected(LoanNotFound)
      case Some(k) =>
        var l := s[i].loans[k];
        if l.status == Closed then Rejected(LoanAlreadyClosed)
        else if s[i].balance < l.outstanding then Rejected(InsufficientBalance)
        else
          var debited := s[i].(balance := s[i].balance - l.outstanding);
          var closed := l.(status := Closed, outstanding := 0.0);
          var user := Record(debited.(loans := debited.loans[k := closed]), LoanClosure, l.outstanding, now,
                             "Loan Closed - " + l.loanType);
          Done(l.outstanding, s[i := user])
  }
}

/** The records kept for each account in the saved store. Money is `real`
    (amounts carry cents), dates and timestamps are day numbers. */
module Records {

  /** The nine kinds of ledger record. The two transfer kinds carry their counterparty. */
  datatype TxKind =
    | Deposit
    | Withdrawal
    | TransferOut(toAccount: string, recipientName: string)
    | TransferIn(fromAccount: string, senderName: string)
    | BillPayment
    | LoanCredit
    | EmiPayment
    | LoanClosure
    | SavingsContribution
  {
    /** The `type` tag written to the store. */
    function Name(): string {
      match this
      case Deposit => "deposit"
      case Withdrawal => "withdrawal"
      case TransferOut(_, _) => "transfer_out"
      case TransferIn(_, _) => "transfer_in"
      case BillPayment => "bill_payment"
      case LoanCredit => "loan_credit"
      case EmiPayment => "emi_payment"
      case LoanClosure => "loan_closure"
      case SavingsContribution => "savings_contribution"
    }

    /** Kinds that take money out of the account (shown with a minus sign on statements). */
    predicate IsDebit() {
      Withdrawal? || TransferOut? || SavingsContribution? || BillPayment? || EmiPayment? || LoanClosure?
    }
  }

  /** One ledger record; `balance` is the account balance right after it. */
  datatype Transaction = Transaction(kind: TxKind, amount: real, date: int, balance: real, description: string)

  datatype VirtualCard = VirtualCard(cardNumber: string, cvv: string, expiry: int, cardHolder: string)

  datatype Beneficiary = Beneficiary(id: int, account: string, name: string, nickname: string, addedOn: int)

  datatype LoanStatus = Active | Closed

  datatype Loan = Loan(
    loanId: string,
    loanType: string,
    principal: real,
    interestRate: real,
    tenureMonths: int,
    emi: real,
    totalAmount: real,
    totalInterest: real,
    outstanding: real,
    paidEmis: int,
    purpose: string,
    appliedOn: int,
    status: LoanStatus,
    nextEmiDate: int)

  /** A bill is stored as paid and never changes afterwards. */
  datatype BillStatus = Paid

  datatype Bill = Bill(id: int, billType: string, provider: string, billNumber: string, amount: real, date: int, status: BillStatus)

  datatype GoalStatus = GoalActive | GoalCompleted

  datatype SavingsGoal = SavingsGoal(
    id: int,
    name: string,
    targetAmount: real,
    currentAmount: real,
    deadline: int,
    createdAt: int,
    status: GoalStatus)

  datatype Account = Account(
    name: string,
    age: int,
    email: string,
    mobile: string,
    address: string,
    pinHash: string,
    accountNo: string,
    balance: real,
    createdAt: int,
    transactions: seq<Transaction>,
    card: VirtualCard,
    savingsGoals: seq<SavingsGoal>,
    beneficiaries: seq<Beneficiary>,
    loans: seq<Loan>,
    bills: seq<Bill>)

  /** The whole saved collection, in file order. */
  type Store = seq<Account>
}

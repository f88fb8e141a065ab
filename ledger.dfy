/** The per-account transaction ledger: how a record is appended, and the
    invariants that the balance, the records and the lists of an account keep. */
module Ledger {

  import opened Records

  /** A record's effect on the balance: debits count negative, credits positive. */
  function Signed(t: Transaction): real {
    if t.kind.IsDebit() then -t.amount else t.amount
  }

  /** The balance obtained by applying the records in order to an empty account. */
  function SignedSum(ts: seq<Transaction>): real {
    if ts == [] then 0.0 else SignedSum(ts[..|ts| - 1]) + Signed(ts[|ts| - 1])
  }

  /** Every record's `balance` snapshot is the running signed sum up to and including it. */
  ghost predicate SnapshotsAgree(ts: seq<Transaction>) {
    forall k :: 0 <= k < |ts| ==> ts[k].balance == SignedSum(ts[..k + 1])
  }

  ghost predicate LedgerOk(a: Account) {
    && a.balance >= 0.0
    && a.balance == SignedSum(a.transactions)
    && SnapshotsAgree(a.transactions)
  }

  /** Bills and savings goals are never removed, so their ids are 1..n in order. */
  ghost predicate BillsNumbered(bs: seq<Bill>) {
    forall k :: 0 <= k < |bs| ==> bs[k].id == k + 1
  }

  ghost predicate GoalsNumbered(gs: seq<SavingsGoal>) {
    forall k :: 0 <= k < |gs| ==> gs[k].id == k + 1
  }

  /** Outstanding principal is never negative, and a closed loan owes nothing. */
  ghost predicate LoansSettled(ls: seq<Loan>) {
    forall k :: 0 <= k < |ls| ==> ls[k].outstanding >= 0.0 && (ls[k].status == Closed ==> ls[k].outstanding == 0.0)
  }

  /** A goal is completed only once its target has been reached. */
  ghost predicate GoalsReached(gs: seq<SavingsGoal>) {
    forall k :: 0 <= k < |gs| ==> gs[k].status == GoalCompleted ==> gs[k].currentAmount >= gs[k].targetAmount
  }

  ghost predicate AccountOk(a: Account) {
    && LedgerOk(a)
    && BillsNumbered(a.bills)
    && GoalsNumbered(a.savingsGoals)
    && LoansSettled(a.loans)
    && GoalsReached(a.savingsGoals)
  }

  ghost predicate StoreOk(s: Store) {
    forall j :: 0 <= j < |s| ==> AccountOk(s[j])
  }

  /** Append one record that snapshots the account's current (already updated) balance. */
  function Record(a: Account, kind: TxKind, amount: real, date: int, description: string): Account {
    a.(transactions := a.transactions + [Transaction(kind, amount, date, a.balance, description)])
  }

  /** `a'` is `a` with `amount` moved in the direction of `kind` and exactly one record
      appended whose snapshot is the new balance. */
  ghost predicate Posted(a: Account, a': Account, kind: TxKind, amount: real, date: int, description: string) {
    && a'.balance == (if kind.IsDebit() then a.balance - amount else a.balance + amount)
    && a'.transactions == a.transactions + [Transaction(kind, amount, date, a'.balance, description)]
  }

  /** Appending a record whose snapshot is the previous sum plus its signed amount keeps
      every snapshot equal to its running sum. */
  lemma {:induction false} AppendKeepsSnapshots(ts: seq<Transaction>, t: Transaction)
    requires SnapshotsAgree(ts)
    requires t.balance == SignedSum(ts) + Signed(t)
    ensures SignedSum(ts + [t]) == t.balance
    ensures SnapshotsAgree(ts + [t])
  {
    var ts' := ts + [t];
    assert ts'[..|ts'| - 1] == ts;
    forall k | 0 <= k < |ts'|
      ensures ts'[k].balance == SignedSum(ts'[..k + 1])
    {
      if k < |ts| {
        assert ts'[..k + 1] == ts[..k + 1];
      } else {
        assert ts'[..k + 1] == ts';
      }
    }
  }

  /** A posting that leaves a non-negative balance keeps the ledger consistent. */
  lemma PostedKeepsLedger(a: Account, a': Account, kind: TxKind, amount: real, date: int, description: string)
    requires LedgerOk(a)
    requires Posted(a, a', kind, amount, date, description)
    requires a'.balance >= 0.0
    ensures LedgerOk(a')
  {
    AppendKeepsSnapshots(a.transactions, Transaction(kind, amount, date, a'.balance, description));
  }

  /** The last record's snapshot is the account balance. */
  lemma LastSnapshotIsBalance(a: Account)
    requires LedgerOk(a)
    requires a.transactions != []
    ensures a.transactions[|a.transactions| - 1].balance == a.balance
  {
    var ts := a.transactions;
    assert ts[..|ts|] == ts;
  }

  /** Loans are only appended; a closed loan is never touched again. */
  ghost predicate LoansEvolve(ls: seq<Loan>, ls': seq<Loan>) {
    && |ls| <= |ls'|
    && forall k :: 0 <= k < |ls| ==>
         && ls'[k].loanId == ls[k].loanId
         && (ls[k].status == Closed ==> ls'[k] == ls[k])
  }

  /** Goals are only appended; their target never moves; a completed goal is never touched again. */
  ghost predicate GoalsEvolve(gs: seq<SavingsGoal>, gs': seq<SavingsGoal>) {
    && |gs| <= |gs'|
    && forall k :: 0 <= k < |gs| ==>
         && gs'[k].id == gs[k].id
         && gs'[k].targetAmount == gs[k].targetAmount
         && (gs[k].status == GoalCompleted ==> gs'[k] == gs[k])
  }

  /** How an account may change under any operation: same identity and card,
      transactions and bills append-only, loans and goals evolve one way. */
  ghost predicate Evolves(a: Account, a': Account) {
    && a'.accountNo == a.accountNo
    && a'.createdAt == a.createdAt
    && a'.card == a.card
    && a.transactions <= a'.transactions
    && a.bills <= a'.bills
    && LoansEvolve(a.loans, a'.loans)
    && GoalsEvolve(a.savingsGoals, a'.savingsGoals)
  }
}

/** The beneficiary directory and the savings goals of an account. */
module DirectoryOps {

  import opened Records
  import opened Outcomes
  import opened Registry
  import opened Ledger
  import opened Sequences

  /** Whether the directory already lists this target account. */
  predicate Listed(bs: seq<Beneficiary>, account: string) {
    exists k :: 0 <= k < |bs| && bs[k].account == account
  }

  /** `add_beneficiary`. Checks, in order: credentials, not oneself, the target exists (in a
      separate load of the store), not already listed. The new entry's id is the old count
      plus one and it caches the target's name. */
  function AddBeneficiary(s: Store, accountNo: string, pinHash: string, target: string, nickname: string,
                          now: int): (o: Outcome<Beneficiary, Store>)
    ensures !Authenticated(s, accountNo, pinHash) ==> o == Rejected(InvalidCredentials)
    ensures Authenticated(s, accountNo, pinHash) && accountNo == target ==> o == Rejected(SelfBeneficiary)
    ensures Authenticated(s, accountNo, pinHash) && accountNo != target && !HasAccount(s, target)
            ==> o == Rejected(BeneficiaryNotFound)
    ensures (Authenticated(s, accountNo, pinHash) && accountNo != target && HasAccount(s, target)
             && Listed(Holder(s, accountNo, pinHash).beneficiaries, target)) ==> o == Rejected(DuplicateBeneficiary)
    ensures o.Done? <==>
      && Authenticated(s, accountNo, pinHash) && accountNo != target && HasAccount(s, target)
      && !Listed(Holder(s, accountNo, pinHash).beneficiaries, target)
    ensures o.Done? ==>
      var i, j := Who(s, accountNo, pinHash), FindByAccount(s, target).value;
      var bs := s[i].beneficiaries;
      && OnlyChanged(s, o.store, i)
      && o.value == Beneficiary(|bs| + 1, target, s[j].name, nickname, now)
      && o.store[i] == s[i].(beneficiaries := bs + [o.value])
  {
    match FindIndex(s, accountNo, pinHash)
    case None => Rejected(InvalidCredentials)
    case Some(i) =>
      if accountNo == target then Rejected(SelfBeneficiary)
      else
        match FindByAccount(s, target)
        case None => Rejected(BeneficiaryNotFound)
        case Some(j) =>
          var bs := s[i].beneficiaries;
          if Listed(bs, target) then Rejected(DuplicateBeneficiary)
          else
            var b := Beneficiary(|bs| + 1, target, s[j].name, nickname, now);
            Done(b, s[i := s[i].(beneficiaries := bs + [b])])
  }

  /** The entries whose id differs from `id`, in their order. */
  function WithoutId(bs: seq<Beneficiary>, id: int): seq<Beneficiary> {
    Keep(bs, (b: Beneficiary) => b.id != id)
  }

  /** `remove_beneficiary`: after authentication it always succeeds, keeping exactly the
      entries with another id; when none has this id the directory is unchanged. */
  function RemoveBeneficiary(s: Store, accountNo: string, pinHash: string, id: int): (o: Outcome<(), Store>)
    ensures !Authenticated(s, accountNo, pinHash) ==> o == Rejected(InvalidCredentials)
    ensures o.Done? <==> Authenticated(s, accountNo, pinHash)
    ensures o.Done? ==>
      var i := Who(s, accountNo, pinHash);
      && OnlyChanged(s, o.store, i)
      && var bs, bs' := s[i].beneficiaries, o.store[i].beneficiaries;
      && o.store[i] == s[i].(beneficiaries := bs')
      && bs' == WithoutId(bs, id)
      && (forall b :: b in bs' ==> b in bs && b.id != id)
      && (forall b :: b in bs && b.id != id ==> b in bs')
  {
    match FindIndex(s, accountNo, pinHash)
    case None => Rejected(InvalidCredentials)
    case Some(i) =>
      var bs := s[i].beneficiaries;
      KeepIsSubsequence(bs, (b: Beneficiary) => b.id != id);
      Done((), s[i := s[i].(beneficiaries := WithoutId(bs, id))])
  }

  /** `add_savings_goal`: after authentication always accepted; the goal is numbered
      after the existing ones, starts at 0 saved and is active. The target is not checked. */
  function AddSavingsGoal(s: Store, accountNo: string, pinHash: string, name: string, target: real,
                          deadline: int, now: int): (o: Outcome<(), Store>)
    ensures !Authenticated(s, accountNo, pinHash) ==> o == Rejected(InvalidCredentials)
    ensures o.Done? <==> Authenticated(s, accountNo, pinHash)
    ensures o.Done? ==>
      var i := Who(s, accountNo, pinHash);
      var gs := s[i].savingsGoals;
      && OnlyChanged(s, o.store, i)
      && o.store[i] == s[i].(savingsGoals := gs + [SavingsGoal(|gs| + 1, name, target, 0.0, deadline, now, GoalActive)])
  {
    match FindIndex(s, accountNo, pinHash)
    case None => Rejected(InvalidCredentials)
    case Some(i) =>
      var gs := s[i].savingsGoals;
      Done((), s[i := s[i].(savingsGoals := gs + [SavingsGoal(|gs| + 1, name, target, 0.0, deadline, now, GoalActive)])])
  }

  /** The first goal of the account with this id. */
  function GoalIndex(a: Account, goalId: int): (r: Option<nat>)
    ensures r.Some? ==> r.value < |a.savingsGoals| && a.savingsGoals[r.value].id == goalId
    ensures r.None? <==> forall k :: 0 <= k < |a.savingsGoals| ==> a.savingsGoals[k].id != goalId
    ensures r.Some? ==> forall k :: 0 <= k < r.value ==> a.savingsGoals[k].id != goalId
  {
    FirstIndex(a.savingsGoals, (g: SavingsGoal) => g.id == goalId)
  }

  /** `contribute_to_goal`. Checks, in order: credentials, balance >= amount (the amount
      itself is not checked), the goal exists, it is not completed. The amount moves from
      the balance to the goal, which completes exactly when it reaches its target. */
  function ContributeToGoal(s: Store, accountNo: string, pinHash: string, goalId: int, amount: real,
                            now: int): (o: Outcome<SavingsGoal, Store>)
    ensures !Authenticated(s, accountNo, pinHash) ==> o == Rejected(InvalidCredentials)
    ensures Authenticated(s, accountNo, pinHash) && Holder(s, accountNo, pinHash).balance < amount
            ==> o == Rejected(InsufficientBalance)
    ensures (Authenticated(s, accountNo, pinHash) && amount <= Holder(s, accountNo, pinHash).balance
             && GoalIndex(Holder(s, accountNo, pinHash), goalId).None?) ==> o == Rejected(GoalNotFound)
    ensures (Authenticated(s, accountNo, pinHash) && amount <= Holder(s, accountNo, pinHash).balance
             && GoalIndex(Holder(s, accountNo, pinHash), goalId).Some?
             && Holder(s, accountNo, pinHash).savingsGoals[GoalIndex(Holder(s, accountNo, pinHash), goalId).value].status
                == GoalCompleted) ==> o == Rejected(GoalAlreadyCompleted)
    ensures o.Done? <==>
      && Authenticated(s, accountNo, pinHash)
      && amount <= Holder(s, accountNo, pinHash).balance
      && GoalIndex(Holder(s, accountNo, pinHash), goalId).Some?
      && Holder(s, accountNo, pinHash).savingsGoals[GoalIndex(Holder(s, accountNo, pinHash), goalId).value].status
         == GoalActive
    ensures o.Done? ==>
      var i := Who(s, accountNo, pinHash);
      var k := GoalIndex(s[i], goalId).value;
      var g := s[i].savingsGoals[k];
      && OnlyChanged(s, o.store, i)
      && o.store[i].balance == s[i].balance - amount >= 0.0
      && Posted(s[i], o.store[i], SavingsContribution, amount, now, "Saved for: " + g.name)
      && o.value.currentAmount == g.currentAmount + amount
      && (o.value.status == GoalCompleted <==> o.value.currentAmount >= g.targetAmount)
      && o.value == g.(currentAmount := o.value.currentAmount, status := o.value.status)
      && o.store[i].savingsGoals == s[i].savingsGoals[k := o.value]
      && o.store[i] == s[i].(balance := o.store[i].balance, transactions := o.store[i].transactions,
                             savingsGoals := o.store[i].savingsGoals)
  {
    match FindIndex(s, accountNo, pinHash)
    case None => Rejected(InvalidCredentials)
    case Some(i) =>
      if s[i].balance < amount then Rejected(InsufficientBalance)
      else
        match GoalIndex(s[i], goalId)
        case None => Rejected(GoalNotFound)
        case Some(k) =>
          var g := s[i].savingsGoals[k];
          if g.status == GoalCompleted then Rejected(GoalAlreadyCompleted)
          else
            assert g.status == GoalActive;
            var saved := g.currentAmount + amount;
            var g' := g.(currentAmount := saved, status := if saved >= g.targetAmount then GoalCompleted else g.status);
            var debited := s[i].(balance := s[i].balance - amount);
            var user := Record(debited.(savingsGoals := debited.savingsGoals[k := g']), SavingsContribution, amount,
                               now, "Saved for: " + g.name);
            Done(g', s[i := user])
  }
}

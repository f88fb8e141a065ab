/** Looking accounts up in a loaded store: by account number and PIN hash
    (`_find_user`) and by account number alone (`_find_user_by_account`). */
module Registry {

  import opened Records
  import opened Outcomes
  import opened Sequences

  predicate Authenticates(a: Account, accountNo: string, pinHash: string) {
    a.accountNo == accountNo && a.pinHash == pinHash
  }

  ghost predicate Authenticated(s: Store, accountNo: string, pinHash: string) {
    exists j :: 0 <= j < |s| && Authenticates(s[j], accountNo, pinHash)
  }

  ghost predicate HasAccount(s: Store, accountNo: string) {
    exists j :: 0 <= j < |s| && s[j].accountNo == accountNo
  }

  /** The first account whose number and PIN hash both match. */
  function FindIndex(s: Store, accountNo: string, pinHash: string): (r: Option<nat>)
    ensures r.Some? <==> Authenticated(s, accountNo, pinHash)
    ensures r.Some? ==> r.value < |s| && Authenticates(s[r.value], accountNo, pinHash)
    ensures r.Some? ==> forall j :: 0 <= j < r.value ==> !Authenticates(s[j], accountNo, pinHash)
  {
    FirstIndex(s, a => Authenticates(a, accountNo, pinHash))
  }

  /** The position of the authenticated account. */
  function Who(s: Store, accountNo: string, pinHash: string): (i: nat)
    requires Authenticated(s, accountNo, pinHash)
    ensures i < |s| && Authenticates(s[i], accountNo, pinHash)
  {
    FindIndex(s, accountNo, pinHash).value
  }

  /** The authenticated account itself. */
  function Holder(s: Store, accountNo: string, pinHash: string): Account
    requires Authenticated(s, accountNo, pinHash)
  {
    s[Who(s, accountNo, pinHash)]
  }

  /** `s'` differs from `s` at most at position `i`. */
  ghost predicate OnlyChanged(s: Store, s': Store, i: int) {
    && |s'| == |s|
    && 0 <= i < |s|
    && forall j :: 0 <= j < |s| && j != i ==> s'[j] == s[j]
  }

  /** The first account with this number, whatever its PIN. */
  function FindByAccount(s: Store, accountNo: string): (r: Option<nat>)
    ensures r.Some? <==> HasAccount(s, accountNo)
    ensures r.Some? ==> r.value < |s| && s[r.value].accountNo == accountNo
    ensures r.Some? ==> forall j :: 0 <= j < r.value ==> s[j].accountNo != accountNo
  {
    FirstIndex(s, (a: Account) => a.accountNo == accountNo)
  }
}

/** Account lifecycle on the loaded store: opening, profile update and deletion. */
module ProfileOps {

  import opened Records
  import opened Outcomes
  import opened Registry
  import opened Ledger
  import opened Validation
  import opened Identifiers
  import opened Sequences

  const MinAge: int := 18
  /** A virtual card expires 1825 days after the account is opened. */
  const CardLifetime: int := 1825

  /** The random draws behind one account opening: account number letters and digits,
      card number digits and CVV digits. */
  datatype OpeningDraws = OpeningDraws(letters: seq<Letter>, digits: seq<Digit>, card: seq<Digit>, cvv: seq<Digit>) {
    predicate Complete() {
      |letters| == 4 && |digits| == 6 && |card| == 16 && |cvv| == 3
    }
  }

  /** `create_account`. Checks, in order: age >= 18, a 4-digit PIN, no empty field, an
      e-mail with `@` and `.`, a 10-digit mobile. The new account is appended with balance 0,
      no history, a fresh virtual card in the holder's upper-cased name, and the PIN stored
      only as its hash. Nothing checks that the drawn account number is unused. */
  function CreateAccount(s: Store, name: string, age: int, email: string, mobile: string, address: string,
                         pin: string, pinHash: string, draws: OpeningDraws, now: int): (o: Outcome<string, Store>)
    requires draws.Complete()
    ensures age < MinAge ==> o == Rejected(Underage)
    ensures age >= MinAge && !ValidPin(pin) ==> o == Rejected(InvalidPin)
    ensures age >= MinAge && ValidPin(pin) && (name == "" || email == "" || mobile == "" || address == "")
            ==> o == Rejected(MissingField)
    ensures (age >= MinAge && ValidPin(pin) && name != "" && mobile != "" && address != "" && email != ""
             && !ValidEmail(email)) ==> o == Rejected(InvalidEmail)
    ensures (age >= MinAge && ValidPin(pin) && name != "" && address != "" && ValidEmail(email) && mobile != ""
             && !ValidMobile(mobile)) ==> o == Rejected(InvalidMobile)
    ensures o.Done? <==>
      age >= MinAge && ValidPin(pin) && name != "" && address != "" && ValidEmail(email) && ValidMobile(mobile)
    ensures o.Done? ==>
      && |o.store| == |s| + 1
      && o.store[..|s|] == s
      && var a := o.store[|s|];
      && a.accountNo == AccountNumber(draws.letters, draws.digits)
      && IsAccountNumber(a.accountNo)
      && Authenticates(a, a.accountNo, pinHash)
      && a.name == name && a.age == age && a.email == email && a.mobile == mobile && a.address == address
      && a.balance == 0.0 && a.createdAt == now
      && a.transactions == [] && a.savingsGoals == [] && a.beneficiaries == [] && a.loans == [] && a.bills == []
      && |a.card.cardNumber| == 16 && IsDigits(a.card.cardNumber)
      && |a.card.cvv| == 3 && IsDigits(a.card.cvv)
      && a.card.expiry == now + CardLifetime
      && a.card.cardHolder == Upper(name)
      && AccountOk(a)
      && o.value == a.accountNo
  {
    if age < MinAge then Rejected(Underage)
    else if !ValidPin(pin) then Rejected(InvalidPin)
    else if name == "" || email == "" || mobile == "" || address == "" then Rejected(MissingField)
    else if !ValidEmail(email) then Rejected(InvalidEmail)
    else if !ValidMobile(mobile) then Rejected(InvalidMobile)
    else
      var card := VirtualCard(CardNumber(draws.card), Cvv(draws.cvv), now + CardLifetime, Upper(name));
      var a := Account(name, age, email, mobile, address, pinHash, AccountNumber(draws.letters, draws.digits),
                       0.0, now, [], card, [], [], [], []);
      Done(a.accountNo, s + [a])
  }

  /** The profile after an update: each supplied (non-empty) field replaces the stored one.
      The card holder name is not touched. */
  function Amended(a: Account, name: string, email: string, mobile: string, address: string,
                   newPin: string, newPinHash: string): Account
  {
    a.(name := if name != "" then name else a.name,
       email := if email != "" then email else a.email,
       mobile := if mobile != "" then mobile else a.mobile,
       address := if address != "" then address else a.address,
       pinHash := if newPin != "" then newPinHash else a.pinHash)
  }

  /** `update_details`. Empty arguments leave their field alone. A supplied e-mail, mobile
      or new PIN that is malformed rejects the whole update, even when an earlier field
      (the name, say) was already changed on the loaded copy: that copy is never saved. */
  function UpdateDetails(s: Store, accountNo: string, pinHash: string, name: string, email: string, mobile: string,
                         address: string, newPin: string, newPinHash: string): (o: Outcome<(), Store>)
    ensures !Authenticated(s, accountNo, pinHash) ==> o == Rejected(InvalidCredentials)
    ensures Authenticated(s, accountNo, pinHash) && email != "" && !ValidEmail(email) ==> o == Rejected(InvalidEmail)
    ensures (Authenticated(s, accountNo, pinHash) && (email == "" || ValidEmail(email))
             && mobile != "" && !ValidMobile(mobile)) ==> o == Rejected(InvalidMobile)
    ensures (Authenticated(s, accountNo, pinHash) && (email == "" || ValidEmail(email))
             && (mobile == "" || ValidMobile(mobile)) && newPin != "" && !ValidPin(newPin)) ==> o == Rejected(InvalidPin)
    ensures o.Done? <==>
      && Authenticated(s, accountNo, pinHash)
      && (email == "" || ValidEmail(email))
      && (mobile == "" || ValidMobile(mobile))
      && (newPin == "" || ValidPin(newPin))
    ensures o.Done? ==>
      var i := Who(s, accountNo, pinHash);
      && OnlyChanged(s, o.store, i)
      && var a, a' := s[i], o.store[i];
      && a'.name == (if name != "" then name else a.name)
      && a'.email == (if email != "" then email else a.email)
      && a'.mobile == (if mobile != "" then mobile else a.mobile)
      && a'.address == (if address != "" then address else a.address)
      && a'.pinHash == (if newPin != "" then newPinHash else a.pinHash)
      && a' == a.(name := a'.name, email := a'.email, mobile := a'.mobile, address := a'.address, pinHash := a'.pinHash)
  {
    match FindIndex(s, accountNo, pinHash)
    case None => Rejected(InvalidCredentials)
    case Some(i) =>
      if email != "" && !ValidEmail(email) then Rejected(InvalidEmail)
      else if mobile != "" && !ValidMobile(mobile) then Rejected(InvalidMobile)
      else if newPin != "" && !ValidPin(newPin) then Rejected(InvalidPin)
      else Done((), s[i := Amended(s[i], name, email, mobile, address, newPin, newPinHash)])
  }

  /** `delete_account`: `data.remove(user)` drops the first account equal to the
      authenticated one, which is that very account: the rest keep their order. */
  function DeleteAccount(s: Store, accountNo: string, pinHash: string): (o: Outcome<(), Store>)
    ensures !Authenticated(s, accountNo, pinHash) ==> o == Rejected(InvalidCredentials)
    ensures o.Done? <==> Authenticated(s, accountNo, pinHash)
    ensures o.Done? ==>
      var i := Who(s, accountNo, pinHash);
      o.store == s[..i] + s[i + 1..]
  {
    match FindIndex(s, accountNo, pinHash)
    case None => Rejected(InvalidCredentials)
    case Some(i) =>
      RemoveFirstOfFound(s, i);
      Done((), RemoveFirst(s, s[i]))
  }
}

/** Result shapes shared by every Bank operation. */
module Outcomes {

  datatype Option<+T> = None | Some(value: T)

  /** The reasons a Bank operation reports failure (the message half of its `(False, message)` reply). */
  datatype Error =
    | InvalidCredentials
    | Underage | InvalidPin | MissingField | InvalidEmail | InvalidMobile
    | NonPositiveAmount | DepositLimitExceeded | InsufficientBalance
    | RecipientNotFound | SameAccount | TransferLimitExceeded
    | SelfBeneficiary | BeneficiaryNotFound | DuplicateBeneficiary
    | LoanBelowMinimum | LoanAboveMaximum | EmiUndefined | LoanNotFound | LoanAlreadyClosed
    | GoalNotFound | GoalAlreadyCompleted
    | SaveFailed

  /** What an operation decides before persisting: the reply value and the whole
      store it would save, or the rejection (which never reaches the save). */
  datatype Outcome<+T, +S> = Done(value: T, store: S) | Rejected(error: Error)

  /** The reply the caller sees. */
  datatype Result<+T> = Ok(value: T) | Err(error: Error)

  /** The reply once the single save at the end of the operation has succeeded or failed. */
  function Reply<T, S>(o: Outcome<T, S>, saveOk: bool): (r: Result<T>)
    ensures r.Ok? <==> o.Done? && saveOk
    ensures r.Ok? ==> r.value == o.value
    ensures o.Rejected? ==> r == Err(o.error)
    ensures o.Done? && !saveOk ==> r == Err(SaveFailed)
  {
    match o
    case Rejected(e) => Err(e)
    case Done(v, _) => if saveOk then Ok(v) else Err(SaveFailed)
  }

  /** The persisted store afterwards: only a decided outcome whose save succeeded replaces it. */
  function Saved<T, S>(o: Outcome<T, S>, saveOk: bool, before: S): (after: S)
    ensures o.Rejected? || !saveOk ==> after == before
    ensures o.Done? && saveOk ==> after == o.store
  {
    if o.Done? && saveOk then o.store else before
  }
}

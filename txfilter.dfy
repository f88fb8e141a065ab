/** `filter_transactions`: the records of an account that pass every active criterion,
    in their original order. Python's truthiness decides which criteria are active:
    an absent date is inactive, a type of `None`, `""` or `"all"` is inactive, and an
    amount bound of `None` or `0` is inactive. */
module TxFilter {

  import opened Records
  import opened Outcomes
  import opened Sequences

  datatype Criteria = Criteria(
    startDate: Option<int>,
    endDate: Option<int>,
    txnType: Option<string>,
    minAmount: Option<real>,
    maxAmount: Option<real>)

  predicate TypeActive(c: Criteria) {
    c.txnType.Some? && c.txnType.value != "" && c.txnType.value != "all"
  }

  /** `if bound and ...`: a bound of 0 is falsy and so ignored. */
  predicate BoundActive(b: Option<real>) {
    b.Some? && b.value != 0.0
  }

  /** Whether a record survives every `continue` of the filtering loop. */
  predicate Passes(t: Transaction, c: Criteria) {
    && (c.startDate.None? || t.date >= c.startDate.value)
    && (c.endDate.None? || t.date <= c.endDate.value)
    && (!TypeActive(c) || t.kind.Name() == c.txnType.value)
    && (!BoundActive(c.minAmount) || t.amount >= c.minAmount.value)
    && (!BoundActive(c.maxAmount) || t.amount <= c.maxAmount.value)
  }

  function Test(c: Criteria): Transaction -> bool {
    t => Passes(t, c)
  }

  function Filtered(ts: seq<Transaction>, c: Criteria): seq<Transaction> {
    Keep(ts, Test(c))
  }

  /** The filter returns exactly the passing records, each once, in their original order. */
  lemma FilterSelectsExactlyPassing(ts: seq<Transaction>, c: Criteria)
    ensures var idx := KeptIndices(ts, Test(c));
      && |Filtered(ts, c)| == |idx|
      && (forall k :: 0 <= k < |idx| ==> Filtered(ts, c)[k] == ts[idx[k]])
      && (forall k, l :: 0 <= k < l < |idx| ==> idx[k] < idx[l])
      && (forall j :: 0 <= j < |ts| ==> (j in idx <==> Passes(ts[j], c)))
  {
    KeepIsSubsequence(ts, Test(c));
    var idx := KeptIndices(ts, Test(c));
    forall j | 0 <= j < |ts| && j in idx
      ensures Passes(ts[j], c)
    {
      var k :| 0 <= k < |idx| && idx[k] == j;
      assert Test(c)(ts[idx[k]]);
    }
  }

  predicate NoCriteria(c: Criteria) {
    c.startDate.None? && c.endDate.None? && !TypeActive(c) && !BoundActive(c.minAmount) && !BoundActive(c.maxAmount)
  }

  /** With no active criterion every record is returned, in order. */
  lemma NoCriteriaKeepsAll(ts: seq<Transaction>, c: Criteria)
    requires NoCriteria(c)
    ensures Filtered(ts, c) == ts
  {
    KeepAll(ts, Test(c));
  }

  /** Falsy criteria are ignored: a type of "all" or "" is the same as none, and an amount
      bound of 0 is the same as none. */
  lemma FalsyCriteriaIgnored(ts: seq<Transaction>, c: Criteria)
    ensures Filtered(ts, c.(txnType := Some("all"))) == Filtered(ts, c.(txnType := None))
    ensures Filtered(ts, c.(txnType := Some(""))) == Filtered(ts, c.(txnType := None))
    ensures Filtered(ts, c.(minAmount := Some(0.0))) == Filtered(ts, c.(minAmount := None))
    ensures Filtered(ts, c.(maxAmount := Some(0.0))) == Filtered(ts, c.(maxAmount := None))
  {
    KeepSameFilter(ts, Test(c.(txnType := Some("all"))), Test(c.(txnType := None)));
    KeepSameFilter(ts, Test(c.(txnType := Some(""))), Test(c.(txnType := None)));
    KeepSameFilter(ts, Test(c.(minAmount := Some(0.0))), Test(c.(minAmount := None)));
    KeepSameFilter(ts, Test(c.(maxAmount := Some(0.0))), Test(c.(maxAmount := None)));
  }
}

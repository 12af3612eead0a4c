/** The agreement table and the rest of the state a pinning service keeps. */
module Agreements {
  import opened Wrappers
  import opened BigNumbers
  import opened Billing
  import opened Outcomes
  import opened PinJobs

  type Reference = string

  datatype Agreement = Agreement(
    dataReference: string,
    isActive: bool,
    expiredAtBlockNumber: Option<int>,
    account: Account)
  {
    /** hasSufficientFunds at the library's default precision. */
    predicate Funded(now: int) {
      account.HasSufficientFunds(now, DECIMAL_PLACES)
    }
  }

  /** What is funded at one instant was funded at every earlier one. */
  lemma FundedEarlier(a: Agreement, now: int, later: int)
    requires now <= later && a.Funded(later)
    ensures a.Funded(now)
  {
    if !a.Funded(now) {
      LostFundsStayLost(a.account, now, later, DECIMAL_PLACES);
    }
  }

  /** The table, keyed by agreement reference. */
  type Table = map<Reference, Agreement>

  datatype Code = IAgreementNew | IAgreementStopped | IAgreementExpired

  datatype Notice = Notice(code: Code, reference: Reference)

  /** `jobs` holds the outcome of each agreement's latest pin job. */
  datatype State = State(rows: Table, pinned: set<string>, notices: seq<Notice>, jobs: map<Reference, Outcome>)

  const EMPTY_STATE := State(map[], {}, [], map[])

  datatype UnpinReply = Unpinned | WasNotPinned | UnpinFailed

  /** What the caller of an unpin gets, when the node's reply to a removal would be `reply`. */
  function UnpinAnswer(pinned: set<string>, hash: string, reply: Reply): UnpinReply {
    if !reply.Worked? then UnpinFailed else if hash in pinned then Unpinned else WasNotPinned
  }

  function UnpinPins(pinned: set<string>, hash: string, reply: Reply): set<string> {
    if reply.Refused? then pinned else pinned - {hash}
  }

  /** No two agreements are about the same data. */
  predicate NoSharedData(rows: Table) {
    forall r, q :: r in rows && q in rows && r != q ==> rows[r].dataReference != rows[q].dataReference
  }

  // ----- Enumerations of rows -----

  ghost predicate Enumerates(found: seq<Reference>, refs: set<Reference>) {
    && (forall r :: r in refs <==> r in found)
    && (forall i, j :: 0 <= i < j < |found| ==> found[i] != found[j])
  }

  /** Of the rows found, the first i are handled. */
  ghost predicate AreHandled(found: seq<Reference>, i: nat, handled: set<Reference>)
    requires i <= |found|
  {
    && (forall k :: 0 <= k < i ==> found[k] in handled)
    && (forall k :: i <= k < |found| ==> found[k] !in handled)
  }

  lemma HandleNext(found: seq<Reference>, refs: set<Reference>, i: nat, handled: set<Reference>)
    requires Enumerates(found, refs) && i < |found| && AreHandled(found, i, handled)
    ensures found[i] in refs && found[i] !in handled && AreHandled(found, i + 1, handled + {found[i]})
  {
    assert found[i] in found;
  }

  lemma AllHandled(found: seq<Reference>, refs: set<Reference>, handled: set<Reference>)
    requires Enumerates(found, refs) && AreHandled(found, |found|, handled)
    ensures refs <= handled
  {
  }

  /** A query without ORDER BY: the matching references, once each, in any order. */
  method FindAll(refs: set<Reference>) returns (found: seq<Reference>)
    ensures Enumerates(found, refs)
  {
    found := [];
    var left := refs;
    while left != {}
      invariant left <= refs
      invariant Enumerates(found, refs - left)
      decreases left
    {
      var r :| r in left;
      found := found + [r];
      left := left - {r};
    }
    assert refs - left == refs;
  }
}

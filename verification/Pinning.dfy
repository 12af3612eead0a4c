/** What pinning a hash amounts to: the pin job under the retry protocol. */
module Pinning {
  import opened Wrappers
  import opened Outcomes
  import opened PinJobs
  import opened Jobs

  datatype PinResult = PinResult(pinned: set<string>, outcome: Outcome)

  /** What `pin` leaves behind: nothing at all when no try is configured. */
  function Pin(pinned: set<string>, hash: string, size: nat, tries: nat -> Try, retries: int): PinResult {
    if retries < 1 then PinResult(pinned, Done)
    else
      var k := LastAttempt(size, tries, retries, 0);
      PinResult(PinsAfter(pinned, hash, size, tries, k + 1), Result(size, tries(k)))
  }

  /** The attempt got to add the pin. */
  predicate TryAdds(size: nat, t: Try) {
    !t.startLost && !t.runningLost && Adds(size, t.replies)
  }

  /** The attempt took the pin away again. */
  predicate TryRemoves(size: nat, t: Try) {
    !t.startLost && !t.runningLost && Removes(size, t.replies)
  }

  predicate NoneRemoves(size: nat, tries: nat -> Try, from: nat, n: nat) {
    forall j: nat {:trigger TryRemoves(size, tries(j))} :: from <= j < n ==> !TryRemoves(size, tries(j))
  }

  /** Some of the first n attempts added the pin and none took it away from then on. */
  ghost predicate AddedForGood(size: nat, tries: nat -> Try, n: nat) {
    exists i: nat {:trigger NoneRemoves(size, tries, i, n)} ::
      i < n && TryAdds(size, tries(i)) && NoneRemoves(size, tries, i, n)
  }

  lemma NoneRemovesNext(size: nat, tries: nat -> Try, from: nat, n: nat)
    requires from <= n
    ensures NoneRemoves(size, tries, from, n + 1) <==> NoneRemoves(size, tries, from, n) && !TryRemoves(size, tries(n))
  {
  }

  lemma AddedOnceMore(size: nat, tries: nat -> Try, n: nat)
    ensures AddedForGood(size, tries, n + 1)
       <==> !TryRemoves(size, tries(n)) && (TryAdds(size, tries(n)) || AddedForGood(size, tries, n))
  {
    if AddedForGood(size, tries, n + 1) {
      var i: nat :| i < n + 1 && TryAdds(size, tries(i)) && NoneRemoves(size, tries, i, n + 1);
      NoneRemovesNext(size, tries, i, n);
    }
    if !TryRemoves(size, tries(n)) && TryAdds(size, tries(n)) {
      assert NoneRemoves(size, tries, n, n + 1);
    } else if !TryRemoves(size, tries(n)) && AddedForGood(size, tries, n) {
      var i: nat :| i < n && TryAdds(size, tries(i)) && NoneRemoves(size, tries, i, n);
      NoneRemovesNext(size, tries, i, n);
    }
  }

  lemma TryPinsEffect(pinned: set<string>, hash: string, size: nat, t: Try)
    ensures var after := TryPins(pinned, hash, size, t);
            && (hash in after <==> !TryRemoves(size, t) && (TryAdds(size, t) || hash in pinned))
            && after - {hash} == pinned - {hash}
  {
  }

  lemma {:induction false} PinsAfterRetries(pinned: set<string>, hash: string, size: nat, tries: nat -> Try, n: nat)
    ensures hash in PinsAfter(pinned, hash, size, tries, n)
       <==> (hash in pinned && NoneRemoves(size, tries, 0, n)) || AddedForGood(size, tries, n)
    ensures PinsAfter(pinned, hash, size, tries, n) - {hash} == pinned - {hash}
  {
    if n > 0 {
      PinsAfterRetries(pinned, hash, size, tries, n - 1);
      AddedOnceMore(size, tries, n - 1);
      NoneRemovesNext(size, tries, 0, n - 1);
      TryPinsEffect(PinsAfter(pinned, hash, size, tries, n - 1), hash, size, tries(n - 1));
    }
  }

  /** What the result of the last attempt says about its sizes and the pin. */
  lemma ResultMeans(size: nat, t: Try)
    ensures Result(size, t).Done? ==>
              && TryAdds(size, t) && !TryRemoves(size, t)
              && t.replies.actualSize.Some? && t.replies.actualSize.value <= size * BYTES_IN_MB
    ensures var o := Result(size, t);
            o.Failed? && o.error.SizeExceeded? && o.error.actual ==>
              TryRemoves(size, t) && o.error.bytes > size * BYTES_IN_MB
  {
  }

  lemma RetriedFailures(size: nat, tries: nat -> Try, retries: int, i: nat)
    requires !Decisive(size, tries, retries, i)
    ensures TryOutcome(size, tries(i)).Failed? && TryOutcome(size, tries(i)).error.Failure?
  {
  }

  /** The whole pin job. Afterwards the hash is pinned exactly when some attempt added it and
      none took it away since, or it was pinned before and none took it away; no other pin is
      touched. So a normal return means that it is pinned, with its last measured size within
      the paid size; and a size error from the actual size means that it is not. Only plain
      failures were retried. */
  lemma PinGuarantee(pinned: set<string>, hash: string, size: nat, tries: nat -> Try, retries: int) returns (k: nat)
    requires retries >= 1
    ensures k < retries
    ensures var PinResult(after, outcome) := Pin(pinned, hash, size, tries, retries);
            var replies := tries(k).replies;
            && outcome == Result(size, tries(k))
            && (hash in after
                <==> (hash in pinned && NoneRemoves(size, tries, 0, k + 1)) || AddedForGood(size, tries, k + 1))
            && after - {hash} == pinned - {hash}
            && (outcome.Done? ==> hash in after && replies.actualSize.Some?
                                  && replies.actualSize.value <= size * BYTES_IN_MB)
            && (outcome.Failed? && outcome.error.SizeExceeded? && outcome.error.actual ==>
                  hash !in after && outcome.error.bytes > size * BYTES_IN_MB)
            && (forall i: nat :: i < k ==>
                  var earlier := TryOutcome(size, tries(i)); earlier.Failed? && earlier.error.Failure?)
  {
    k := LastAttempt(size, tries, retries, 0);
    forall i: nat | i < k
      ensures var earlier := TryOutcome(size, tries(i)); earlier.Failed? && earlier.error.Failure?
    {
      RetriedFailures(size, tries, retries, i);
    }
    PinsAfterRetries(pinned, hash, size, tries, k + 1);
    AddedOnceMore(size, tries, k);
    NoneRemovesNext(size, tries, 0, k);
    ResultMeans(size, tries(k));
  }

  /** In short, for callers: what a normal return means for the set. */
  lemma NormalReturnPins(pinned: set<string>, hash: string, size: nat, tries: nat -> Try, retries: int)
    requires retries >= 1 && Pin(pinned, hash, size, tries, retries).outcome.Done?
    ensures Pin(pinned, hash, size, tries, retries).pinned == pinned + {hash}
  {
    var k := PinGuarantee(pinned, hash, size, tries, retries);
    var after := Pin(pinned, hash, size, tries, retries).pinned;
    assert after == (after - {hash}) + {hash};
    assert pinned + {hash} == (pinned - {hash}) + {hash};
  }

  /** A pin job that throws leaves a hash that was not pinned before pinned exactly when an
      attempt added it for good; and there is such a job: every attempt adds the pin and then
      fails to measure the actual size. */
  lemma FailedPinMayStay(hash: string, size: nat, retries: int)
    requires retries >= 1
    ensures forall tries: nat -> Try ::
              hash in Pin({}, hash, size, tries, retries).pinned
              <==> AddedForGood(size, tries, LastAttempt(size, tries, retries, 0) + 1)
    ensures exists tries: nat -> Try ::
              var PinResult(after, outcome) := Pin({}, hash, size, tries, retries);
              outcome.Failed? && hash in after
  {
    forall tries: nat -> Try
      ensures hash in Pin({}, hash, size, tries, retries).pinned
         <==> AddedForGood(size, tries, LastAttempt(size, tries, retries, 0) + 1)
    {
      PinsAfterRetries({}, hash, size, tries, LastAttempt(size, tries, retries, 0) + 1);
    }
    var unmeasured := (i: nat) => Smooth(Replies(Some(0), Worked, None, Worked));
    var k := PinGuarantee({}, hash, size, unmeasured, retries);
    assert TryAdds(size, unmeasured(0)) && NoneRemoves(size, unmeasured, 0, k + 1);
    assert Pin({}, hash, size, unmeasured, retries).outcome.Failed?;
  }

  /** The attempt works: the job runs, the file fits, and nothing is lost. */
  predicate Works(size: nat, t: Try) {
    !t.startLost && !t.runningLost && FileFits(size, t.replies) && !t.finishedLost && !t.doneLost
  }

  /** After this attempt, unless it works, there is no other: the file was found too big, or its
      failure cannot be announced. */
  predicate GivesUp(size: nat, t: Try) {
    (!t.startLost && !t.runningLost && FileTooBig(size, t.replies)) || t.failureLost
  }

  /** Attempt i works and none before it gave up. */
  predicate FirstToWork(size: nat, tries: nat -> Try, i: nat) {
    Works(size, tries(i)) && forall j: nat :: j < i ==> !GivesUp(size, tries(j))
  }

  /** A pin job returns normally, and leaves the hash pinned, exactly when one of the allowed
      attempts works and none before it gave up. */
  lemma ReturnsExactly(pinned: set<string>, hash: string, size: nat, tries: nat -> Try, retries: int)
    requires retries >= 1
    ensures var result := Pin(pinned, hash, size, tries, retries);
            && (result.outcome == Done
                <==> exists i: nat :: i < retries && FirstToWork(size, tries, i))
            && (result.outcome == Done ==> result.pinned == pinned + {hash})
  {
    var k := LastAttemptInReplies(size, tries, retries);
    TryInReplies(size, tries(k));
    if Pin(pinned, hash, size, tries, retries).outcome == Done {
      NormalReturnPins(pinned, hash, size, tries, retries);
      assert FirstToWork(size, tries, k);
    }
    if i: nat :| i < retries && FirstToWork(size, tries, i) {
      LastNotAfter(size, tries, retries, i);
      assert k == i || !GivesUp(size, tries(k));
    }
  }

  lemma LastNotAfter(size: nat, tries: nat -> Try, retries: int, i: nat)
    requires i < retries && Works(size, tries(i))
    ensures LastAttempt(size, tries, retries, 0) <= i
  {
    TryInReplies(size, tries(i));
    assert Decisive(size, tries, retries, i);
  }
}

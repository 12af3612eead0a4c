/** The IPFS pin job: check the announced size, pin, check the actual size, and unpin again
    when it is too big. The IPFS node is a set of pinned hashes; what it answers to one
    attempt is a record of replies, where None stands for a size query that throws. */
module PinJobs {
  import opened Wrappers
  import opened FloorArithmetic
  import opened BigNumbers
  import opened Outcomes

  const BYTES_IN_MB := 1024 * 1024

  function BytesToMegabytes(bytes: nat): BigNumber {
    Div(Num(bytes), Num(BYTES_IN_MB), DECIMAL_PLACES)
  }

  /** A call that changes the pins can also throw after it took effect, as a timeout does. */
  datatype Reply = Worked | Refused | ReplyLost

  datatype Replies = Replies(metaSize: Option<nat>, added: Reply, actualSize: Option<nat>, removed: Reply)

  /** More bytes than the paid megabytes. */
  predicate TooBig(bytes: nat, expectedSize: nat) {
    bytes > expectedSize * BYTES_IN_MB
  }

  // ----- Sizes -----

  lemma MegabyteDivides(bytes: nat)
    ensures bytes * Pow10(20) == (bytes * 95367431640625) * BYTES_IN_MB
  {
    assert Pow10(10) == 10000000000;
    assert Pow10(15) == 100000 * Pow10(10);
    assert Pow10(20) == 100000 * Pow10(15);
  }

  lemma NearestOfWhole(m: int, b: int, n: nat)
    requires b > 0 && m == n * b
    ensures NearestQuotient(m, b) == n
  {
    assert 2 * m + b == n * (2 * b) + b;
    MulMonotone(0, n, b);
    DivUnique(2 * m + b, 2 * b, n);
  }

  /** 2^-20 has exactly twenty decimals, so at the default precision no size is ever
      rounded and comparing megabytes is comparing bytes with the paid size exactly. */
  lemma TooBigExactly(bytes: nat, expectedSize: nat)
    ensures Gt(BytesToMegabytes(bytes), Num(expectedSize)) <==> TooBig(bytes, expectedSize)
  {
    var s := Pow10(20);
    var n := bytes * 95367431640625;
    MegabyteDivides(bytes);
    ScaledQuotient(bytes, BYTES_IN_MB, s);
    NearestIntegerOfQuotient(bytes * s, BYTES_IN_MB);
    NearestOfWhole(bytes * s, BYTES_IN_MB, n);
    assert Div(Num(bytes), Num(BYTES_IN_MB), DECIMAL_PLACES) == Finite(Quotient(n, s));
    assert s == 95367431640625 * BYTES_IN_MB by {
      MegabyteDivides(1);
    }
    assert Quotient(n, s) == Quotient(bytes, BYTES_IN_MB) by {
      QuotientIs(n as real, s as real, Quotient(bytes, BYTES_IN_MB));
    }
  }

  // ----- One attempt -----

  /** The attempt got as far as the call that adds the pin. */
  predicate TriesToPin(expectedSize: nat, r: Replies) {
    r.metaSize.Some? && !TooBig(r.metaSize.value, expectedSize)
  }

  /** The attempt got as far as the call that takes the pin away again. */
  predicate TriesToUnpin(expectedSize: nat, r: Replies) {
    TriesToPin(expectedSize, r) && r.added.Worked? && r.actualSize.Some? && TooBig(r.actualSize.value, expectedSize)
  }

  predicate Adds(expectedSize: nat, r: Replies) {
    TriesToPin(expectedSize, r) && !r.added.Refused?
  }

  predicate Removes(expectedSize: nat, r: Replies) {
    TriesToUnpin(expectedSize, r) && !r.removed.Refused?
  }

  function AttemptOutcome(expectedSize: nat, r: Replies): Outcome {
    if r.metaSize == None then Failed(Failure("meta size"))
    else if TooBig(r.metaSize.value, expectedSize) then Failed(SizeExceeded(false, r.metaSize.value, expectedSize))
    else if !r.added.Worked? then Failed(Failure("pin"))
    else if r.actualSize == None then Failed(Failure("actual size"))
    else if !TooBig(r.actualSize.value, expectedSize) then Done
    else if !r.removed.Worked? then Failed(Failure("unpin"))
    else Failed(SizeExceeded(true, r.actualSize.value, expectedSize))
  }

  function AttemptPins(pinned: set<string>, hash: string, expectedSize: nat, r: Replies): set<string> {
    if Removes(expectedSize, r) then pinned - {hash}
    else if Adds(expectedSize, r) then pinned + {hash}
    else pinned
  }

  /** An attempt in its replies. It works exactly when both sizes are known and within the paid
      size and the pin could be added. It ends in a size error, which carries the size found and
      the paid one, exactly when the announced size is too big, or the actual one is and the
      pin could be removed; every other failure is a plain one. Afterwards the hash is pinned
      exactly when the call to add it took effect, or it was pinned before, and no removal of it
      took effect; other pins stay. */
  lemma AttemptInReplies(pinned: set<string>, hash: string, size: nat, r: Replies)
    ensures var o, after := AttemptOutcome(size, r), AttemptPins(pinned, hash, size, r);
            var meta, actual := r.metaSize, r.actualSize;
            var metaFits := meta.Some? && meta.value <= size * 1024 * 1024;
            var actualTooBig := metaFits && r.added.Worked? && actual.Some? && actual.value > size * 1024 * 1024;
            && (o == Done <==> metaFits && r.added.Worked? && actual.Some? && actual.value <= size * 1024 * 1024)
            && (meta.Some? && !metaFits ==> o == Failed(SizeExceeded(false, meta.value, size)))
            && (actualTooBig && r.removed.Worked? ==> o == Failed(SizeExceeded(true, actual.value, size)))
            && (o.Failed? && o.error.SizeExceeded?
                <==> (meta.Some? && !metaFits) || (actualTooBig && r.removed.Worked?))
            && (o.Failed? ==> o.error.SizeExceeded? || o.error.Failure?)
            && (hash in after
                <==> (hash in pinned || (metaFits && !r.added.Refused?)) && !(actualTooBig && !r.removed.Refused?))
            && after - {hash} == pinned - {hash}
  {
  }

  /** The size check, in megabytes as the source makes it. */
  method ExceedsPaid(bytes: nat, expectedSize: nat) returns (tooBig: bool)
    ensures tooBig == (bytes > expectedSize * 1024 * 1024)
  {
    TooBigExactly(bytes, expectedSize);
    tooBig := Gt(BytesToMegabytes(bytes), Num(expectedSize));
  }

  class IpfsNode {
    var pinned: set<string>

    constructor ()
      ensures pinned == {}
    {
      pinned := {};
    }

    method AddPin(hash: string, reply: Reply) returns (thrown: bool)
      modifies this
      ensures thrown == !reply.Worked?
      ensures pinned == if reply.Refused? then old(pinned) else old(pinned) + {hash}
    {
      if !reply.Refused? {
        pinned := pinned + {hash};
      }
      thrown := !reply.Worked?;
    }

    method RemovePin(hash: string, reply: Reply) returns (thrown: bool)
      modifies this
      ensures thrown == !reply.Worked?
      ensures pinned == if reply.Refused? then old(pinned) else old(pinned) - {hash}
    {
      if !reply.Refused? {
        pinned := pinned - {hash};
      }
      thrown := !reply.Worked?;
    }

    method RunPinJob(hash: string, expectedSize: nat, r: Replies) returns (o: Outcome)
      modifies this
      ensures o == AttemptOutcome(expectedSize, r)
      ensures pinned == AttemptPins(old(pinned), hash, expectedSize, r)
      ensures o == Done
         <==> && r.metaSize.Some? && r.metaSize.value <= expectedSize * 1024 * 1024 && r.added.Worked?
              && r.actualSize.Some? && r.actualSize.value <= expectedSize * 1024 * 1024
      ensures r.metaSize.Some? && r.metaSize.value > expectedSize * 1024 * 1024 ==>
                o == Failed(SizeExceeded(false, r.metaSize.value, expectedSize)) && pinned == old(pinned)
      ensures r.metaSize.Some? && r.metaSize.value <= expectedSize * 1024 * 1024 && r.added.Worked?
              && r.actualSize.Some? && r.actualSize.value > expectedSize * 1024 * 1024 && r.removed.Worked? ==>
                o == Failed(SizeExceeded(true, r.actualSize.value, expectedSize)) && hash !in pinned
      ensures o == Done ==> pinned == old(pinned) + {hash}
    {
      if r.metaSize == None {
        return Failed(Failure("meta size"));
      }
      var tooBig := ExceedsPaid(r.metaSize.value, expectedSize);
      if tooBig {
        return Failed(SizeExceeded(false, r.metaSize.value, expectedSize));
      }
      var thrown := AddPin(hash, r.added);
      if thrown {
        return Failed(Failure("pin"));
      }
      if r.actualSize == None {
        return Failed(Failure("actual size"));
      }
      tooBig := ExceedsPaid(r.actualSize.value, expectedSize);
      if tooBig {
        thrown := RemovePin(hash, r.removed);
        if thrown {
          return Failed(Failure("unpin"));
        }
        return Failed(SizeExceeded(true, r.actualSize.value, expectedSize));
      }
      o := Done;
    }
  }
}

/** The billing arithmetic of an agreement: elapsed periods, capped payout, prepaid
    periods, sufficient funds and remaining time. Money, sizes, seconds and milliseconds
    are integers; quotients are BigNumbers under a given precision. */
module Billing {
  import opened FloorArithmetic
  import opened BigNumbers

  /** The billing columns of an agreement; the period is in seconds, dates are in
      milliseconds, and the balance may be negative. */
  datatype Account = Account(
    size: nat,
    billingPeriod: nat,
    billingPrice: nat,
    availableFunds: int,
    lastPayout: int)
  {
    function PeriodPrice(): nat {
      Product(size, billingPrice)
    }

    function PeriodMs(): nat {
      billingPeriod * 1000
    }

    function PeriodsSinceLastPayout(now: int, floor: bool, p: Precision): BigNumber {
      var periods := Div(Num(now - lastPayout), Num(PeriodMs()), p);
      if floor then BnFloor(periods) else periods
    }

    function ToBePayedOut(now: int, floor: bool, p: Precision): BigNumber {
      var amountToPay := Times(PeriodsSinceLastPayout(now, floor, p), Num(PeriodPrice()));
      if Lte(amountToPay, Num(availableFunds)) then BnFloor(amountToPay) else Num(availableFunds)
    }

    function NumberOfPrepaidPeriods(p: Precision): BigNumber {
      if Gt(Num(PeriodPrice()), Num(0))
      then BnFloor(Div(Num(availableFunds), Num(PeriodPrice()), p))
      else Num(0)
    }

    predicate HasSufficientFunds(now: int, p: Precision) {
      Gte(Minus(Num(availableFunds), ToBePayedOut(now, true, p)), Num(PeriodPrice()))
    }

    function ExpiresIn(now: int, p: Precision): BigNumber {
      if !HasSufficientFunds(now, p) then Num(0) else
        var availableFundsAfterPayout := Minus(Num(availableFunds), ToBePayedOut(now, false, p));
        BnFloor(Times(Div(availableFundsAfterPayout, Num(PeriodPrice()), p), Num(billingPeriod)))
    }

    /** The instant at which the prepaid periods are used up. */
    function RunOut(): int
      requires PeriodPrice() > 0
    {
      lastPayout + Product(availableFunds / PeriodPrice(), PeriodMs())
    }

    /** More than half of 10^-d of a period is left of the prepaid periods, or nothing is
        charged. A tie counts before the first period only. */
    predicate LastsBeyond(now: int, d: nat) {
      PeriodPrice() == 0 ||
      var left := 2 * Product(RunOut() - now, Pow10(d));
      if now >= lastPayout then left > PeriodMs() else left >= PeriodMs()
    }
  }

  function Product(x: int, y: int): (z: int)
    ensures x >= 0 && y >= 0 ==> z >= 0
  {
    x * y
  }

  // ----- Elapsed and prepaid periods -----

  lemma ElapsedPeriods(a: Account, now: int)
    requires a.billingPeriod > 0
    ensures a.PeriodsSinceLastPayout(now, true, Exact) == Num((now - a.lastPayout) / a.PeriodMs())
  {
    FloorQuotient(now - a.lastPayout, a.PeriodMs());
    assert Div(Num(now - a.lastPayout), Num(a.PeriodMs()), Exact)
        == Finite(Quotient(now - a.lastPayout, a.PeriodMs()));
  }

  lemma PrepaidPeriods(a: Account)
    requires a.PeriodPrice() > 0
    ensures a.NumberOfPrepaidPeriods(Exact) == Num(a.availableFunds / a.PeriodPrice())
  {
    FloorQuotient(a.availableFunds, a.PeriodPrice());
    assert Div(Num(a.availableFunds), Num(a.PeriodPrice()), Exact)
        == Finite(Quotient(a.availableFunds, a.PeriodPrice()));
  }

  lemma TimesNums(x: int, y: int)
    ensures Times(Num(x), Num(y)) == Num(Product(x, y))
  {
  }

  lemma CoversAnother(m: int, price: int, funds: int)
    requires price > 0
    ensures Product(m, price) + price <= funds <==> m + 1 <= funds / price
  {
    DivLess(funds, price, m + 1);
    assert (m + 1) * price == m * price + price;
  }

  lemma CappedPayout(a: Account, now: int, p: Precision, due: int)
    requires Times(a.PeriodsSinceLastPayout(now, true, p), Num(a.PeriodPrice())) == Num(due)
    ensures a.ToBePayedOut(now, true, p) == Num(if due <= a.availableFunds then due else a.availableFunds)
    ensures a.HasSufficientFunds(now, p)
       <==> if due <= a.availableFunds then due + a.PeriodPrice() <= a.availableFunds else a.PeriodPrice() == 0
  {
  }

  /** With m whole periods elapsed, the funds suffice exactly when they cover m + 1. */
  lemma SufficientForPeriods(a: Account, now: int, p: Precision, m: int)
    requires a.PeriodsSinceLastPayout(now, true, p) == Num(m)
    ensures a.HasSufficientFunds(now, p)
       <==> a.PeriodPrice() == 0 || m + 1 <= a.availableFunds / a.PeriodPrice()
    ensures var due := Product(m, a.PeriodPrice());
            a.ToBePayedOut(now, true, p) == Num(if due <= a.availableFunds then due else a.availableFunds)
  {
    TimesNums(m, a.PeriodPrice());
    CappedPayout(a, now, p, Product(m, a.PeriodPrice()));
    if a.PeriodPrice() > 0 {
      CoversAnother(m, a.PeriodPrice(), a.availableFunds);
    } else {
      assert Product(m, 0) == 0;
    }
  }

  /** With a zero billing period the quotient is an infinity or NaN; the same instant
      separates funded from unfunded. */
  lemma SufficientWithoutPeriod(a: Account, now: int)
    requires a.billingPeriod == 0
    ensures a.HasSufficientFunds(now, Exact) <==> a.PeriodPrice() == 0 || now < a.lastPayout
    ensures forall p :: a.HasSufficientFunds(now, p) == a.HasSufficientFunds(now, Exact)
  {
  }

  /** Sufficient funds, in closed form, for every balance and every clock. */
  lemma SufficientUntilRunOut(a: Account, now: int)
    ensures a.HasSufficientFunds(now, Exact) <==> a.PeriodPrice() == 0 || now < a.RunOut()
  {
    var price, ms := a.PeriodPrice(), a.PeriodMs();
    if ms == 0 {
      SufficientWithoutPeriod(a, now);
      if price > 0 {
        assert Product(a.availableFunds / price, 0) == 0;
      }
    } else {
      var e := now - a.lastPayout;
      ElapsedPeriods(a, now);
      SufficientForPeriods(a, now, Exact, e / ms);
      if price > 0 {
        DivLess(e, ms, a.availableFunds / price);
      }
    }
  }

  /** The same, as the source's two period counts compare. */
  lemma SufficientByPeriods(a: Account, now: int)
    requires a.billingPeriod > 0 && a.PeriodPrice() > 0
    ensures a.HasSufficientFunds(now, Exact)
       <==> exists elapsed, prepaid ::
              && a.PeriodsSinceLastPayout(now, true, Exact) == Num(elapsed)
              && a.NumberOfPrepaidPeriods(Exact) == Num(prepaid)
              && elapsed + 1 <= prepaid
  {
    var e, n := (now - a.lastPayout) / a.PeriodMs(), a.availableFunds / a.PeriodPrice();
    ElapsedPeriods(a, now);
    PrepaidPeriods(a);
    SufficientForPeriods(a, now, Exact, e);
    assert forall x: int, y: int :: Num(x) == Num(y) ==> x == y;
  }

  /** Funds that have run out stay out until an event changes the row, however quotients
      are rounded. */
  lemma LostFundsStayLost(a: Account, now: int, later: int, p: Precision)
    requires now <= later && !a.HasSufficientFunds(now, p)
    ensures !a.HasSufficientFunds(later, p)
  {
    match p
    case Exact =>
      SufficientUntilRunOut(a, now);
      SufficientUntilRunOut(a, later);
    case Places(d) =>
      if a.billingPeriod > 0 {
        var v, w := RoundedFloorMonotone(now - a.lastPayout, later - a.lastPayout, a.PeriodMs(), d);
        SufficientForPeriods(a, now, p, v);
        SufficientForPeriods(a, later, p, w);
      }
  }

  // ----- Rounded division -----

  lemma ElapsedPeriodsRounded(a: Account, now: int, d: nat)
    requires a.PeriodMs() < 2 * Pow10(d)
    ensures a.PeriodsSinceLastPayout(now, true, Places(d)) == a.PeriodsSinceLastPayout(now, true, Exact)
  {
    if a.billingPeriod > 0 {
      FloorSurvivesBelow(now - a.lastPayout, a.PeriodMs(), d);
      ElapsedPeriods(a, now);
    }
  }

  lemma PrepaidPeriodsRounded(a: Account, d: nat)
    requires a.PeriodPrice() < 2 * Pow10(d)
    ensures a.NumberOfPrepaidPeriods(Places(d)) == a.NumberOfPrepaidPeriods(Exact)
  {
    if a.PeriodPrice() > 0 {
      FloorSurvivesBelow(a.availableFunds, a.PeriodPrice(), d);
      PrepaidPeriods(a);
    }
  }

  /** Rounding and exact arithmetic tell the same funds story at this instant. */
  predicate SameFundsStory(a: Account, now: int, d: nat) {
    a.HasSufficientFunds(now, Places(d)) <==> a.HasSufficientFunds(now, Exact)
  }

  predicate SamePrepaidPeriods(a: Account, d: nat) {
    a.NumberOfPrepaidPeriods(Places(d)) == a.NumberOfPrepaidPeriods(Exact)
  }

  /** A balance of one period, one millisecond before that period is over: rounding lifts
      the elapsed time to a whole period and the funds seem lost. */
  lemma RoundingLosesFunds(a: Account, d: nat)
    requires a.PeriodPrice() > 0 && a.PeriodMs() >= 2 * Pow10(d)
    ensures !SameFundsStory(a.(availableFunds := a.PeriodPrice()), a.lastPayout + a.PeriodMs() - 1, d)
  {
    var ms := a.PeriodMs();
    var b := a.(availableFunds := a.PeriodPrice());
    var now := a.lastPayout + ms - 1;
    SufficientUntilRunOut(b, now);
    DivUnique(b.availableFunds, b.PeriodPrice(), 1);
    assert Product(1, ms) == ms;
    FloorLostFrom(ms, d);
    var v := RoundedFloorNotBelow(ms - 1, ms, d);
    DivUnique(ms - 1, ms, 0);
    SufficientForPeriods(b, now, Places(d), v);
  }

  /** The rounded hasSufficientFunds equals the exact one at every balance and clock exactly
      when the period in milliseconds is below 2 * 10^d (or nothing is charged). */
  lemma RoundedFundsAgree(a: Account, d: nat)
    ensures (forall funds: int, now: int :: SameFundsStory(a.(availableFunds := funds), now, d))
       <==> a.PeriodPrice() == 0 || a.PeriodMs() < 2 * Pow10(d)
  {
    if a.PeriodMs() < 2 * Pow10(d) {
      forall funds: int, now: int
        ensures SameFundsStory(a.(availableFunds := funds), now, d)
      {
        ElapsedPeriodsRounded(a.(availableFunds := funds), now, d);
      }
    } else if a.PeriodPrice() == 0 {
      forall funds: int, now: int
        ensures SameFundsStory(a.(availableFunds := funds), now, d)
      {
        FreeIsAlwaysFunded(a.(availableFunds := funds), now, d);
      }
    } else {
      RoundingLosesFunds(a, d);
    }
  }

  lemma FreeIsAlwaysFunded(a: Account, now: int, d: nat)
    requires a.PeriodPrice() == 0 && a.PeriodMs() > 0
    ensures SameFundsStory(a, now, d)
  {
  }

  lemma RoundedElapsedPeriods(a: Account, now: int, d: nat) returns (v: int)
    requires a.billingPeriod > 0
    ensures a.PeriodsSinceLastPayout(now, true, Places(d)) == Num(v)
    ensures v == NearestQuotient((now - a.lastPayout) * Pow10(d), a.PeriodMs()) / Pow10(d)
  {
    v := NearestQuotient((now - a.lastPayout) * Pow10(d), a.PeriodMs()) / Pow10(d);
    DivInIntegers(now - a.lastPayout, a.PeriodMs(), d);
  }

  lemma SameSign(e: int, s: int)
    requires s > 0
    ensures e * s >= 0 <==> e >= 0
  {
  }

  lemma RoundedElapsedBelow(e: int, ms: int, s: int, n: int)
    requires ms > 0 && s > 0
    ensures NearestQuotient(e * s, ms) / s < n
       <==> if e >= 0 then 2 * Product(Product(n, ms) - e, s) > ms else 2 * Product(Product(n, ms) - e, s) >= ms
  {
    var es, ns, nsms := e * s, n * s, n * s * ms;
    DivLess(NearestQuotient(es, ms), s, n);
    NearestLess(es, ms, ns, nsms);
    SameSign(e, s);
    TimeLeftTimes(e, ms, s, n);
  }

  lemma TimeLeftTimes(e: int, ms: int, s: int, n: int)
    ensures Product(Product(n, ms) - e, s) == n * s * ms - e * s
  {
    assert (n * ms - e) * s == n * ms * s - e * s;
    assert n * ms * s == n * s * ms;
  }

  lemma RoundedFundedWithoutPeriod(a: Account, now: int, d: nat)
    requires a.PeriodPrice() > 0 && a.billingPeriod == 0
    ensures a.HasSufficientFunds(now, Places(d)) <==> now < a.lastPayout
    ensures a.RunOut() == a.lastPayout
  {
  }

  /** The rounded funds story in closed form, for every account: at d decimals the funds are
      gone half of 10^-d of a period before the prepaid periods are over. */
  lemma RoundedFundedUntil(a: Account, now: int, d: nat)
    ensures a.HasSufficientFunds(now, Places(d)) <==> a.LastsBeyond(now, d)
  {
    var e := now - a.lastPayout;
    if a.billingPeriod == 0 {
      SufficientWithoutPeriod(a, now);
      if a.PeriodPrice() > 0 {
        RoundedFundedWithoutPeriod(a, now, d);
        SameSign(-e, Pow10(d));
      }
    } else {
      var v := RoundedElapsedPeriods(a, now, d);
      SufficientForPeriods(a, now, Places(d), v);
      if a.PeriodPrice() > 0 {
        RoundedElapsedBelow(e, a.PeriodMs(), Pow10(d), a.availableFunds / a.PeriodPrice());
      }
    }
  }

  /** At the default precision, up to 2 * 10^17 seconds a period, the run-out instant decides. */
  lemma FundedUntilRunOut(a: Account, now: int)
    requires a.PeriodMs() < 2 * Pow10(20)
    ensures a.HasSufficientFunds(now, DECIMAL_PLACES) <==> a.PeriodPrice() == 0 || now < a.RunOut()
  {
    ElapsedPeriodsRounded(a, now, 20);
    SufficientUntilRunOut(a, now);
  }

  /** Likewise the rounded numberOfPrepaidPeriods, over all balances. */
  lemma RoundedPrepaidAgree(a: Account, d: nat)
    ensures (forall funds: int :: SamePrepaidPeriods(a.(availableFunds := funds), d))
       <==> a.PeriodPrice() < 2 * Pow10(d)
  {
    var price := a.PeriodPrice();
    if price < 2 * Pow10(d) {
      forall funds: int
        ensures SamePrepaidPeriods(a.(availableFunds := funds), d)
      {
        PrepaidPeriodsRounded(a.(availableFunds := funds), d);
      }
    } else {
      var b := a.(availableFunds := price - 1);
      FloorLostFrom(price, d);
      PrepaidPeriods(b);
      assert !SamePrepaidPeriods(b, d);
    }
  }

  // ----- In the columns themselves -----

  lemma RunOutInColumns(a: Account)
    ensures a.PeriodPrice() == a.size * a.billingPrice && a.PeriodMs() == 1000 * a.billingPeriod
    ensures a.PeriodPrice() > 0 ==>
              a.RunOut() == a.lastPayout + (a.availableFunds / (a.size * a.billingPrice)) * (1000 * a.billingPeriod)
  {
  }

  /** hasSufficientFunds from the columns: a period costs size times price, and the balance
      lasts from the last payout for the whole periods it pays for. So it is with exact
      quotients, and at the default precision for periods below 2 * 10^20 milliseconds. */
  lemma FundsInColumns(a: Account, now: int)
    ensures var price, ms := a.size * a.billingPrice, 1000 * a.billingPeriod;
            var lasts := price == 0 || now < a.lastPayout + (a.availableFunds / price) * ms;
            && (a.HasSufficientFunds(now, Exact) <==> lasts)
            && (ms < 200000000000000000000 ==> (a.HasSufficientFunds(now, DECIMAL_PLACES) <==> lasts))
  {
    RunOutInColumns(a);
    TenToTheTwentieth();
    SufficientUntilRunOut(a, now);
    if a.PeriodMs() < 2 * Pow10(20) {
      FundedUntilRunOut(a, now);
    }
  }

  /** And for every period and number of decimals: more than half of 10^-d of a period must be
      left; exactly half is enough before the last payout only. */
  lemma RoundedFundsInColumns(a: Account, now: int, d: nat)
    ensures var price, ms := a.size * a.billingPrice, 1000 * a.billingPeriod;
            a.HasSufficientFunds(now, Places(d))
            <==> (price == 0 ||
                  var left := 2 * ((a.lastPayout + (a.availableFunds / price) * ms - now) * Pow10(d));
                  left > ms || (left == ms && now < a.lastPayout))
  {
    RunOutInColumns(a);
    RoundedFundedUntil(a, now, d);
  }

  /** The payout from the columns: the whole periods elapsed times size times price, and the
      balance if that is less. */
  lemma PayoutInColumns(a: Account, now: int)
    requires a.billingPeriod > 0
    ensures var due := ((now - a.lastPayout) / (1000 * a.billingPeriod)) * (a.size * a.billingPrice);
            var payout := Num(if due <= a.availableFunds then due else a.availableFunds);
            && a.ToBePayedOut(now, true, Exact) == payout
            && (1000 * a.billingPeriod < 200000000000000000000 ==> a.ToBePayedOut(now, true, DECIMAL_PLACES) == payout)
  {
    RunOutInColumns(a);
    TenToTheTwentieth();
    var elapsed := (now - a.lastPayout) / a.PeriodMs();
    ElapsedPeriods(a, now);
    SufficientForPeriods(a, now, Exact, elapsed);
    if a.PeriodMs() < 2 * Pow10(20) {
      ElapsedPeriodsRounded(a, now, 20);
      SufficientForPeriods(a, now, DECIMAL_PLACES, elapsed);
    }
  }

  /** The period counts from the columns. */
  lemma PeriodsInColumns(a: Account, now: int)
    ensures var price, ms := a.size * a.billingPrice, 1000 * a.billingPeriod;
            && (ms > 0 ==> a.PeriodsSinceLastPayout(now, true, Exact) == Num((now - a.lastPayout) / ms))
            && a.NumberOfPrepaidPeriods(Exact) == Num(if price > 0 then a.availableFunds / price else 0)
            && (0 < ms < 200000000000000000000 ==>
                  a.PeriodsSinceLastPayout(now, true, DECIMAL_PLACES) == Num((now - a.lastPayout) / ms))
            && (price < 200000000000000000000 ==>
                  a.NumberOfPrepaidPeriods(DECIMAL_PLACES) == a.NumberOfPrepaidPeriods(Exact))
  {
    RunOutInColumns(a);
    TenToTheTwentieth();
    if a.PeriodMs() > 0 {
      ElapsedPeriods(a, now);
    }
    if a.PeriodPrice() > 0 {
      PrepaidPeriods(a);
    }
    if a.PeriodMs() < 2 * Pow10(20) {
      ElapsedPeriodsRounded(a, now, 20);
    }
    if a.PeriodPrice() < 2 * Pow10(20) {
      PrepaidPeriodsRounded(a, 20);
    }
  }
}

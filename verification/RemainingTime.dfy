/** The remaining time of an agreement: expiresIn against the instant at which the agreement
    really runs out, first with exact quotients, then as the code rounds them. */
module RemainingTime {
  import opened FloorArithmetic
  import opened BigNumbers
  import opened Billing

  // ----- With exact quotients -----

  /** At every precision, expiresIn is 0 without funds; with funds it is a number exactly when
      both price and period are positive. */
  lemma ExpiresInIsNumber(a: Account, now: int, p: Precision)
    ensures a.ExpiresIn(now, p).Finite?
       <==> !a.HasSufficientFunds(now, p) || (a.billingPeriod > 0 && a.PeriodPrice() > 0)
    ensures !a.HasSufficientFunds(now, p) ==> a.ExpiresIn(now, p) == Num(0)
  {
  }

  /** The uncapped, unfloored payout at an instant with funds, and what it leaves. */
  lemma ToBePayedOutSoFar(a: Account, now: int)
    requires a.billingPeriod > 0 && a.PeriodPrice() > 0 && now < a.RunOut()
    ensures a.ToBePayedOut(now, false, Exact)
         == Num(Product(now - a.lastPayout, a.PeriodPrice()) / a.PeriodMs())
  {
    var e, price, ms := now - a.lastPayout, a.PeriodPrice(), a.PeriodMs();
    var n := a.availableFunds / price;
    assert Div(Num(e), Num(ms), Exact) == Finite(Quotient(e, ms));
    assert Scaled(Quotient(e, ms), price) == Quotient(Product(e, price), ms) by {
      ScaledQuotient(e, ms, price);
    }
    assert Times(Finite(Quotient(e, ms)), Num(price)) == Finite(Scaled(Quotient(e, ms), price));
    FloorQuotient(Product(e, price), ms);
    QuotientWithin(e, price, ms, n, a.availableFunds);
  }

  lemma QuotientWithin(e: int, price: int, ms: int, n: int, funds: int)
    requires price > 0 && ms > 0 && e < Product(n, ms) && n == funds / price
    ensures Quotient(Product(e, price), ms) <= funds as real
  {
  }

  /** expiresIn in integer arithmetic. */
  lemma ExpiresInClosedForm(a: Account, now: int)
    requires a.billingPeriod > 0 && a.PeriodPrice() > 0 && now < a.RunOut()
    ensures a.ExpiresIn(now, Exact)
         == Num(Product(a.availableFunds - Product(now - a.lastPayout, a.PeriodPrice()) / a.PeriodMs(),
                        a.billingPeriod) / a.PeriodPrice())
  {
    SufficientUntilRunOut(a, now);
    ToBePayedOutSoFar(a, now);
    var price := a.PeriodPrice();
    var left := a.availableFunds - Product(now - a.lastPayout, price) / a.PeriodMs();
    assert Minus(Num(a.availableFunds), a.ToBePayedOut(now, false, Exact)) == Num(left);
    SecondsBought(left, price, a.billingPeriod);
  }

  lemma SecondsBought(left: int, price: int, period: int)
    requires price > 0
    ensures BnFloor(Times(Div(Num(left), Num(price), Exact), Num(period))) == Num(Product(left, period) / price)
  {
    assert Div(Num(left), Num(price), Exact) == Finite(Quotient(left, price));
    assert Times(Finite(Quotient(left, price)), Num(period)) == Finite(Scaled(Quotient(left, price), period));
    ScaledQuotient(left, price, period);
    FloorQuotient(Product(left, period), price);
  }

  /** expiresIn is 0 without funds; with funds it is at least the whole seconds R that
      really remain until hasSufficientFunds turns false, and less than R plus a period. */
  lemma ExpiresInBounds(a: Account, now: int) returns (x: int)
    requires a.billingPeriod > 0 && a.PeriodPrice() > 0
    ensures a.ExpiresIn(now, Exact) == Num(x)
    ensures !a.HasSufficientFunds(now, Exact) ==> x == 0
    ensures a.HasSufficientFunds(now, Exact) ==>
              var remainingMs := a.RunOut() - now;
              remainingMs > 0 && remainingMs / 1000 <= x && x * 1000 < remainingMs + a.PeriodMs()
  {
    SufficientUntilRunOut(a, now);
    if now < a.RunOut() {
      var e, price := now - a.lastPayout, a.PeriodPrice();
      var paid := Product(e, price) / a.PeriodMs();
      ExpiresInClosedForm(a, now);
      x := Product(a.availableFunds - paid, a.billingPeriod) / price;
      RemainingBounds(e, price, a.billingPeriod, a.availableFunds, paid, x);
    } else {
      x := 0;
    }
  }

  lemma RemainingBounds(e: int, price: int, period: int, funds: int, paid: int, x: int)
    requires price > 0 && period > 0
    requires paid == Product(e, price) / (period * 1000)
    requires x == Product(funds - paid, period) / price
    ensures (Product(funds / price, period * 1000) - e) / 1000 <= x
    ensures x * 1000 < Product(funds / price, period * 1000) - e + period * 1000
  {
    var n, ms := funds / price, period * 1000;
    var remaining := Product(n, ms) - e;
    DivBounds(funds, price);
    DivBounds(Product(e, price), ms);
    DivBounds(Product(funds - paid, period), price);
    LowerBound(e, price, period, ms, n, funds, paid, remaining / 1000);
    DivLess(Product(funds - paid, period), price, remaining / 1000);
    UpperBound(e, price, period, ms, n, funds, paid, x);
  }

  lemma Distribute(u: int, v: int, w: int)
    ensures (u - v) * w == u * w - v * w
  {
  }

  lemma PeriodsToMs(left: int, period: int, ms: int)
    requires ms == period * 1000
    ensures left * ms == 1000 * (left * period)
  {
  }

  lemma Commute3(n: int, price: int, ms: int)
    ensures (n * price) * ms == (n * ms) * price
  {
  }

  lemma CancelLess(u: int, v: int, price: int)
    requires price > 0 && u * price < v * price
    ensures u < v
  {
  }

  lemma LowerBound(e: int, price: int, period: int, ms: int, n: int, funds: int, paid: int, y: int)
    requires price > 0 && period > 0 && ms == period * 1000
    requires n * price <= funds && paid * ms <= Product(e, price)
    requires y * 1000 <= Product(n, ms) - e
    ensures y * price <= Product(funds - paid, period)
  {
  }

  lemma UpperBound(e: int, price: int, period: int, ms: int, n: int, funds: int, paid: int, x: int)
    requires price > 0 && period > 0 && ms == period * 1000
    requires funds < n * price + price && Product(e, price) < paid * ms + ms
    requires x * price <= Product(funds - paid, period)
    ensures x * 1000 < Product(n, ms) - e + ms
  {
    MulMonotone(funds + 1, (n + 1) * price, ms) by {
      assert (n + 1) * price == n * price + price;
    }
    assert (funds + 1) * ms == funds * ms + ms;
    Commute3(n + 1, price, ms);
    Distribute(funds, paid, ms);
    PeriodsToMs(funds - paid, period, ms);
    Commute3(x, price, 1000);
    Distribute((n + 1) * ms, e, price);
    CancelLess(x * 1000, (n + 1) * ms - e, price);
    assert (n + 1) * ms == n * ms + ms;
  }

  // ----- Where it is exact -----

  /** What expiresIn reports beyond the whole seconds left, in thousandths of the price: the
      seconds that the balance beyond whole periods would buy, and what flooring adds. */
  function Excess(a: Account, now: int): int
    requires a.billingPeriod > 0 && a.PeriodPrice() > 0
  {
    var e := now - a.lastPayout;
    Product((-e) % 1000, a.PeriodPrice())
    + Product(a.availableFunds % a.PeriodPrice(), a.PeriodMs())
    + Product(e, a.PeriodPrice()) % a.PeriodMs()
  }

  lemma ModuloShift(y: int, k: int)
    ensures (1000 * k + y) % 1000 == y % 1000
  {
    DivBounds(y, 1000);
    DivBounds(1000 * k + y, 1000);
    DivUnique(1000 * k + y, 1000, k + y / 1000);
  }

  lemma WholeSeconds(e: int, n: int, period: int)
    ensures (Product(n, period * 1000) - e) % 1000 == (-e) % 1000
  {
    ModuloShift(-e, n * period);
    assert n * (period * 1000) == 1000 * (n * period);
  }

  lemma QuotientShift(x: int, q: int, r: int, b: int)
    requires b > 0 && x == q * b + r
    ensures x / b == q + r / b
  {
    DivBounds(r, b);
    assert (q + r / b) * b == q * b + (r / b) * b;
    DivUnique(x, b, q + r / b);
  }

  lemma ScaleQuotient(x: int, b: int)
    requires b > 0
    ensures x / b == (x * 1000) / (1000 * b)
  {
    DivBounds(x, b);
    assert (x / b) * (1000 * b) == 1000 * ((x / b) * b);
    DivUnique(x * 1000, 1000 * b, x / b);
  }

  /** expiresIn as the true seconds left plus an excess, in the quantities of Excess. */
  lemma LeftPlusExcess(e: int, price: int, period: int, funds: int)
    requires price > 0 && period > 0
    ensures var ms := period * 1000;
            var left := Product(funds / price, ms) - e;
            var excess := Product(left % 1000, price) + Product(funds % price, ms) + Product(e, price) % ms;
            Product(funds - Product(e, price) / ms, period) / price == left / 1000 + excess / (1000 * price)
  {
    var ms, n, f := period * 1000, funds / price, funds % price;
    var paid, g := Product(e, price) / ms, Product(e, price) % ms;
    var left := n * ms - e;
    DivBounds(funds, price);
    DivBounds(e * price, ms);
    DivBounds(left, 1000);
    var x := (funds - paid) * period;
    PeriodsToMs(funds - paid, period, ms);
    Distribute(funds, paid, ms);
    assert funds * ms == n * price * ms + f * ms;
    Commute3(n, price, ms);
    Distribute(n * ms, e, price);
    assert x * 1000 == left * price + f * ms + g;
    assert left * price == (left / 1000) * (1000 * price) + (left % 1000) * price;
    ScaleQuotient(x, price);
    QuotientShift(x * 1000, left / 1000, (left % 1000) * price + f * ms + g, 1000 * price);
  }

  /** expiresIn exceeds the whole seconds left by the quotient of the excess; so it is exact
      if and only if the excess is below a thousand times the price. */
  lemma ExpiresInExactly(a: Account, now: int)
    requires a.billingPeriod > 0 && a.PeriodPrice() > 0 && a.HasSufficientFunds(now, Exact)
    ensures var left, price := a.RunOut() - now, a.PeriodPrice();
            && a.ExpiresIn(now, Exact) == Num(left / 1000 + Excess(a, now) / (1000 * price))
            && (a.ExpiresIn(now, Exact) == Num(left / 1000) <==> Excess(a, now) < 1000 * price)
  {
    var e, price := now - a.lastPayout, a.PeriodPrice();
    SufficientUntilRunOut(a, now);
    ExpiresInClosedForm(a, now);
    LeftPlusExcess(e, price, a.billingPeriod, a.availableFunds);
    WholeSeconds(e, a.availableFunds / price, a.billingPeriod);
    ExcessNotNegative(a, now);
    DivLess(Excess(a, now), 1000 * price, 1);
    assert forall x: int, y: int :: Num(x) == Num(y) ==> x == y;
  }

  lemma ExcessNotNegative(a: Account, now: int)
    requires a.billingPeriod > 0 && a.PeriodPrice() > 0
    ensures 0 <= Excess(a, now)
    ensures Excess(a, now) / (1000 * a.PeriodPrice()) >= 0
  {
    DivLess(Excess(a, now), 1000 * a.PeriodPrice(), 0);
  }

  /** The bound is reached: with twice the price less one, right after a payout, one period is
      left, and expiresIn reports two periods less a second. */
  lemma OverreportsByAPeriod(a: Account)
    requires 0 < a.billingPeriod <= a.PeriodPrice()
    ensures var b := a.(availableFunds := 2 * a.PeriodPrice() - 1);
            && b.HasSufficientFunds(a.lastPayout, Exact)
            && b.RunOut() - a.lastPayout == a.PeriodMs()
            && b.ExpiresIn(a.lastPayout, Exact) == Num(2 * a.billingPeriod - 1)
  {
    var b := a.(availableFunds := 2 * a.PeriodPrice() - 1);
    OnePeriodLeft(b);
    SufficientUntilRunOut(b, b.lastPayout);
    ExpiresInClosedForm(b, b.lastPayout);
    AlmostTwice(a.PeriodPrice(), a.billingPeriod);
  }

  lemma OnePeriodLeft(b: Account)
    requires b.billingPeriod > 0 && b.PeriodPrice() > 0 && b.availableFunds == 2 * b.PeriodPrice() - 1
    ensures b.availableFunds / b.PeriodPrice() == 1
    ensures b.RunOut() == b.lastPayout + b.PeriodMs()
    ensures Product(b.lastPayout - b.lastPayout, b.PeriodPrice()) / b.PeriodMs() == 0
  {
    DivUnique(b.availableFunds, b.PeriodPrice(), 1);
    assert Product(1, b.PeriodMs()) == b.PeriodMs();
    assert Product(0, b.PeriodPrice()) == 0;
  }

  lemma AlmostTwice(price: int, period: int)
    requires 0 < period <= price
    ensures Product(2 * price - 1, period) / price == 2 * period - 1
  {
    assert (2 * price - 1) * period == (2 * period - 1) * price + (price - period);
    DivUnique((2 * price - 1) * period, price, 2 * period - 1);
  }

  // ----- With rounded quotients -----

  lemma TimesRounded(x: int, b: int, factor: int, d: nat)
    requires b > 0
    ensures Times(Div(Num(x), Num(b), Places(d)), Num(factor))
         == Finite(Quotient(Product(NearestQuotient(x * Pow10(d), b), factor), Pow10(d)))
  {
    var s, u := Pow10(d), NearestQuotient(x * Pow10(d), b);
    assert Div(Num(x), Num(b), Places(d)) == Finite(Rounded(Quotient(x, b), Places(d)));
    ScaledQuotient(x, b, s);
    NearestIntegerOfQuotient(x * s, b);
    ScaledQuotient(u, s, factor);
    assert Times(Finite(Quotient(u, s)), Num(factor)) == Finite(Scaled(Quotient(u, s), factor));
  }

  lemma QuotientAtMost(x: int, s: int, funds: int)
    requires s > 0 && x <= funds * s
    ensures Quotient(x, s) <= funds as real
  {
  }

  /** The unfloored payout at d decimals, with u the rounded periods in units of 10^-d. */
  lemma RoundedToBePayedOut(a: Account, now: int, d: nat) returns (u: int)
    requires a.billingPeriod > 0 && a.PeriodPrice() > 0 && a.HasSufficientFunds(now, Places(d))
    ensures u == NearestQuotient((now - a.lastPayout) * Pow10(d), a.PeriodMs())
    ensures a.ToBePayedOut(now, false, Places(d)) == Num(Product(u, a.PeriodPrice()) / Pow10(d))
  {
    var s, price, funds := Pow10(d), a.PeriodPrice(), a.availableFunds;
    u := NearestQuotient((now - a.lastPayout) * s, a.PeriodMs());
    var v := RoundedElapsedPeriods(a, now, d);
    SufficientForPeriods(a, now, Places(d), v);
    DivLess(u, s, funds / price);
    WithinFunds(u, s, price, funds);
    TimesRounded(now - a.lastPayout, a.PeriodMs(), price, d);
    QuotientAtMost(Product(u, price), s, funds);
    FloorQuotient(Product(u, price), s);
  }

  lemma WithinFunds(u: int, s: int, price: int, funds: int)
    requires s > 0 && price > 0 && u < (funds / price) * s
    ensures Product(u, price) <= funds * s
  {
  }

  lemma RoundedExpiresInClosedForm(a: Account, now: int, d: nat) returns (u: int, w: int, x: int)
    requires a.billingPeriod > 0 && a.PeriodPrice() > 0 && a.HasSufficientFunds(now, Places(d))
    ensures u == NearestQuotient((now - a.lastPayout) * Pow10(d), a.PeriodMs())
    ensures var left := a.availableFunds - Product(u, a.PeriodPrice()) / Pow10(d);
            w == NearestQuotient(left * Pow10(d), a.PeriodPrice())
    ensures x == Product(w, a.billingPeriod) / Pow10(d)
    ensures a.ExpiresIn(now, Places(d)) == Num(x)
  {
    u := RoundedToBePayedOut(a, now, d);
    var left := a.availableFunds - Product(u, a.PeriodPrice()) / Pow10(d);
    w := NearestQuotient(left * Pow10(d), a.PeriodPrice());
    x := Product(w, a.billingPeriod) / Pow10(d);
    assert Minus(Num(a.availableFunds), a.ToBePayedOut(now, false, Places(d))) == Num(left);
    TimesRounded(left, a.PeriodPrice(), a.billingPeriod, d);
    FloorQuotient(Product(w, a.billingPeriod), Pow10(d));
  }

  lemma FundsTimes(funds: int, price: int, s: int)
    requires s > 0 && price > 0
    ensures var ns := (funds / price) * s;
            ns * price <= funds * s && funds * s + s <= (ns + s) * price
  {
    var n := funds / price;
    DivBounds(funds, price);
    MulMonotone(n * price, funds, s);
    Commute3(n, price, s);
    assert (n + 1) * price == n * price + price;
    MulMonotone(funds + 1, (n + 1) * price, s);
    Commute3(n + 1, price, s);
    assert (n + 1) * s == n * s + s;
    assert (funds + 1) * s == funds * s + s;
  }

  /** The two roundings leave the remaining periods, in units of 10^-d, within these bounds. */
  lemma RoundedPeriodsLeft(u: int, w: int, s: int, price: int, funds: int)
    requires s > 0 && price > 0
    requires w == NearestQuotient((funds - Product(u, price) / s) * s, price)
    ensures 2 * w >= 2 * ((funds / price) * s) - 2 * u - 1
    ensures w <= (funds / price) * s + s - u
  {
    var ns, paid := (funds / price) * s, Product(u, price) / s;
    var m := (funds - paid) * s;
    NearestWithinHalf(m, price);
    DivBounds(Product(u, price), s);
    Distribute(funds, paid, s);
    FundsTimes(funds, price, s);
    LeftBelow(w, ns, u, price, m);
    LeftAbove(w, ns + s, u, price, m);
  }

  lemma LeftBelow(w: int, ns: int, u: int, price: int, m: int)
    requires price > 0 && 2 * (w * price - m) >= -price && m >= ns * price - u * price
    ensures 2 * w >= 2 * ns - 2 * u - 1
  {
    assert (2 * w - 2 * ns + 2 * u + 1) * price == 2 * (w * price) - 2 * (ns * price) + 2 * (u * price) + price;
    if 2 * w - 2 * ns + 2 * u + 1 < 0 {
      MulMonotone(2 * w - 2 * ns + 2 * u + 1, -1, price);
    }
  }

  lemma LeftAbove(w: int, ns: int, u: int, price: int, m: int)
    requires price > 0 && 2 * (w * price - m) <= price && m < ns * price - u * price
    ensures w <= ns - u
  {
    assert (2 * w - 2 * ns + 2 * u - 1) * price == 2 * (w * price) - 2 * (ns * price) + 2 * (u * price) - price;
    if w > ns - u {
      MulMonotone(1, 2 * w - 2 * ns + 2 * u - 1, price);
    }
  }

  /** From periods to seconds: e is the elapsed time, ns and nms the prepaid periods times s
      and times the period. */
  lemma SecondsBelow(e: int, nsms: int, ns: int, u: int, w: int, s: int, ms: int, xs: int)
    requires s > 0 && ms > 0 && nsms == ns * ms
    requires 2 * (u * ms - e * s) <= ms && w * ms < 1000 * (xs + s) && 2 * w >= 2 * ns - 2 * u - 1
    ensures 1000 * (xs + s) > nsms - e * s - ms
  {
    MulMonotone(2 * ns - 2 * u - 1, 2 * w, ms);
    assert (2 * ns - 2 * u - 1) * ms == 2 * nsms - 2 * (u * ms) - ms;
  }

  lemma SecondsAbove(e: int, nsms: int, ns: int, u: int, w: int, s: int, ms: int, xs: int)
    requires s > 0 && ms > 0 && nsms == ns * ms
    requires -ms <= 2 * (u * ms - e * s) && 1000 * xs <= w * ms && w <= ns + s - u
    ensures 2 * (1000 * xs) <= 2 * (nsms - e * s + ms * s) + ms
  {
  }

  lemma RoundedSeconds(e: int, n: int, u: int, w: int, s: int, period: int, x: int)
    requires s > 0 && period > 0
    requires u == NearestQuotient(e * s, period * 1000) && x == Product(w, period) / s
    requires 2 * w >= 2 * (n * s) - 2 * u - 1 && w <= n * s + s - u
    ensures var ms := period * 1000;
            var left := Product(n, ms) - e;
            && (x + 1) * 1000 * s > left * s - ms
            && 2 * (x * 1000 * s) <= 2 * ((left + ms) * s) + ms
  {
    var ms := period * 1000;
    NearestWithinHalf(e * s, ms);
    DivBounds(Product(w, period), s);
    PeriodsToMs(w, period, ms);
    SecondsBelow(e, n * s * ms, n * s, u, w, s, ms, x * s);
    SecondsAbove(e, n * s * ms, n * s, u, w, s, ms, x * s);
    UnitsOfSeconds(e, n, s, ms, x);
  }

  lemma UnitsOfSeconds(e: int, n: int, s: int, ms: int, x: int)
    ensures (Product(n, ms) - e) * s == n * s * ms - e * s
    ensures (Product(n, ms) - e + ms) * s == n * s * ms - e * s + ms * s
    ensures (x + 1) * 1000 * s == 1000 * (x * s + s)
    ensures x * 1000 * s == 1000 * (x * s)
  {
    Commute3(n, s, ms);
    Distribute(n * ms, e, s);
    assert (n * ms - e + ms) * s == (n * ms - e) * s + ms * s;
  }

  /** expiresIn as the code computes it, with quotients rounded to d decimals. Of the true
      seconds left it misses less than one and 10^-d of a period, and it exceeds them by at
      most one period and half of 10^-d of it: for periods up to 10^d milliseconds, by at
      most one period, and it is at most a second short. */
  lemma RoundedExpiresInBounds(a: Account, now: int, d: nat) returns (x: int)
    requires a.billingPeriod > 0 && a.PeriodPrice() > 0
    ensures a.ExpiresIn(now, Places(d)) == Num(x)
    ensures !a.HasSufficientFunds(now, Places(d)) ==> x == 0
    ensures a.HasSufficientFunds(now, Places(d)) ==>
              var left, ms, s := a.RunOut() - now, a.PeriodMs(), Pow10(d);
              && (x + 1) * 1000 * s > left * s - ms
              && 2 * (x * 1000 * s) <= 2 * ((left + ms) * s) + ms
              && (ms <= s ==> left <= (x + 1) * 1000 && x * 1000 <= left + ms)
  {
    if a.HasSufficientFunds(now, Places(d)) {
      var u, w;
      u, w, x := RoundedExpiresInClosedForm(a, now, d);
      var n := a.availableFunds / a.PeriodPrice();
      RoundedPeriodsLeft(u, w, Pow10(d), a.PeriodPrice(), a.availableFunds);
      RoundedSeconds(now - a.lastPayout, n, u, w, Pow10(d), a.billingPeriod, x);
      WithinASecond(a.RunOut() - now, a.PeriodMs(), Pow10(d), x);
    } else {
      x := 0;
    }
  }

  lemma CancelFactor(x: int, y: int, s: int)
    requires s > 0 && x * s <= y * s + s - 1
    ensures x <= y
  {
    assert (y + 1) * s == y * s + s;
    CancelLess(x, y + 1, s);
  }

  lemma WithinASecond(left: int, ms: int, s: int, x: int)
    requires s > 0 && (x + 1) * 1000 * s > left * s - ms && 2 * (x * 1000 * s) <= 2 * ((left + ms) * s) + ms
    ensures ms <= s ==> left <= (x + 1) * 1000 && x * 1000 <= left + ms
  {
    if ms <= s {
      CancelFactor(left, (x + 1) * 1000, s);
      CancelFactor(x * 1000, left + ms, s);
    }
  }

  /** What expiresIn reports beyond the whole seconds left when quotients are rounded: Excess,
      with what each of the two roundings and the floor between them contribute. */
  function RoundedExcess(a: Account, now: int, d: nat): int
    requires a.billingPeriod > 0 && a.PeriodPrice() > 0
  {
    var e, s, price := now - a.lastPayout, Pow10(d), a.PeriodPrice();
    var u := NearestQuotient(e * s, a.PeriodMs());
    var w := NearestQuotient((a.availableFunds - Product(u, price) / s) * s, price);
    ExcessOfUnits(e, a.availableFunds, u, w, s, price, a.PeriodMs())
  }

  /** That excess, for u elapsed and w remaining periods in units of 1/s. */
  function ExcessOfUnits(e: int, funds: int, u: int, w: int, s: int, price: int, ms: int): int
    requires s > 0 && price > 0
  {
    var left := funds - Product(u, price) / s;
    var lifted, kept := Product(u, ms) - e * s, Product(w, price) - left * s;
    Product(Product((-e) % 1000, s), price)
    + Product(Product(funds % price, s) + Product(u, price) % s + kept, ms)
    - Product(lifted, price)
  }

  lemma ScaleBy(x: int, b: int, k: int)
    requires b > 0 && k > 0
    ensures b * k > 0 && x / b == (x * k) / (b * k)
  {
    DivBounds(x, b);
    var q := x / b;
    MulMonotone(1, k, b);
    assert q * (b * k) == (q * b) * k;
    MulMonotone(q * b, x, k);
    MulMonotone(x + 1, q * b + b, k);
    assert (q * b + b) * k == (q * b) * k + b * k;
    assert (x + 1) * k == x * k + k;
    DivUnique(x * k, b * k, q);
  }

  /** The remaining units in exact terms: ms times w * price is the true time left, in price
      times s, plus what the balance beyond whole periods and the roundings add. */
  lemma UnitsLeft(e: int, n: int, f: int, u: int, paid: int, w: int, s: int, price: int, ms: int)
    ensures var g := u * price - paid * s;
            var kept := w * price - (n * price + f - paid) * s;
            (w * ms) * price == ((n * ms - e) * s) * price + (f * s + g + kept) * ms - (u * ms - e * s) * price
  {
  }

  /** With rounded quotients, expiresIn exceeds the whole seconds left by the quotient of the
      rounded excess: it is exact if and only if that excess is not negative and below a
      thousand times the price in units of 10^-d, and short if and only if it is negative. */
  lemma RoundedExpiresInExactly(a: Account, now: int, d: nat) returns (x: int)
    requires a.billingPeriod > 0 && a.PeriodPrice() > 0 && a.HasSufficientFunds(now, Places(d))
    ensures a.ExpiresIn(now, Places(d)) == Num(x)
    ensures var whole, excess := (a.RunOut() - now) / 1000, RoundedExcess(a, now, d);
            var unit := Product(1000 * a.PeriodPrice(), Pow10(d));
            && unit > 0
            && x == whole + excess / unit
            && (x == whole <==> 0 <= excess < unit)
            && (x < whole <==> excess < 0)
  {
    x := RoundedValue(a, now, d);
    QuotientCases(RoundedExcess(a, now, d), Product(1000 * a.PeriodPrice(), Pow10(d)));
  }

  lemma RoundedValue(a: Account, now: int, d: nat) returns (x: int)
    requires a.billingPeriod > 0 && a.PeriodPrice() > 0 && a.HasSufficientFunds(now, Places(d))
    ensures a.ExpiresIn(now, Places(d)) == Num(x)
    ensures var unit := Product(1000 * a.PeriodPrice(), Pow10(d));
            unit > 0 && x == (a.RunOut() - now) / 1000 + RoundedExcess(a, now, d) / unit
  {
    var u, w;
    u, w, x := RoundedExpiresInClosedForm(a, now, d);
    RoundedShift(now - a.lastPayout, a.availableFunds, u, w, Pow10(d), a.PeriodPrice(), a.billingPeriod);
  }

  lemma QuotientCases(excess: int, unit: int)
    requires unit > 0
    ensures excess / unit == 0 <==> 0 <= excess < unit
    ensures excess / unit < 0 <==> excess < 0
  {
    DivLess(excess, unit, 0);
    DivLess(excess, unit, 1);
  }

  lemma RoundedShift(e: int, funds: int, u: int, w: int, s: int, price: int, period: int)
    requires s > 0 && price > 0 && period > 0
    ensures var ms, n := period * 1000, funds / price;
            var excess, unit := ExcessOfUnits(e, funds, u, w, s, price, ms), Product(1000 * price, s);
            unit > 0 && Product(w, period) / s == (Product(n, ms) - e) / 1000 + excess / unit
  {
    var ms, n, f := period * 1000, funds / price, funds % price;
    var paid := Product(u, price) / s;
    var left := n * ms - e;
    DivBounds(funds, price);
    DivBounds(u * price, s);
    DivBounds(left, 1000);
    WholeSeconds(e, n, period);
    UnitsLeft(e, n, f, u, paid, w, s, price, ms);
    ScaleBy(w * period, s, 1000 * price);
    assert (w * period) * (1000 * price) == (w * ms) * price;
    Wholes(left / 1000, left % 1000, s, price);
    assert s * (1000 * price) == (1000 * price) * s;
    var unit := (1000 * price) * s;
    QuotientShift((w * ms) * price, left / 1000, (w * ms) * price - (left / 1000) * unit, unit);
  }

  lemma Wholes(q: int, r: int, s: int, price: int)
    ensures ((q * 1000 + r) * s) * price == q * ((1000 * price) * s) + (r * s) * price
  {
  }

  lemma NothingElapsed(ms: int, d: nat)
    requires ms > 0
    ensures NearestQuotient(0 * Pow10(d), ms) == 0
  {
    DivUnique(ms, 2 * ms, 0);
  }

  /** w units of 10^-d of a period, for twice the price less one, are two periods less a second. */
  lemma AlmostTwiceRounded(price: int, period: int, s: int, w: int)
    requires 0 < period && 2 * period <= price <= s
    requires w == NearestQuotient((2 * price - 1) * s, price)
    ensures Product(w, period) / s == 2 * period - 1
  {
    var m := (2 * price - 1) * s;
    NearestWithinHalf(m, price);
    assert m == 2 * (price * s) - s;
    UnitsBounds(price, s, w);
    WithinOneUnit(price, period, s, w);
    MulMonotone(w, 2 * s - 1, period);
    TwicePeriods(period, s);
    DivUnique(w * period, s, 2 * period - 1);
  }

  lemma TwicePeriods(period: int, s: int)
    ensures (2 * s - 1) * period == 2 * (s * period) - period
    ensures (2 * period - 1) * s == 2 * (s * period) - s
  {
  }

  lemma UnitsBounds(price: int, s: int, w: int)
    requires 0 < price <= s && -price <= 2 * (w * price - (2 * (price * s) - s)) <= price
    ensures w <= 2 * s - 1
  {
    assert (2 * s) * price == 2 * (price * s);
    if w >= 2 * s {
      MulMonotone(2 * s, w, price);
    }
  }

  lemma WithinOneUnit(price: int, period: int, s: int, w: int)
    requires 0 < period && 2 * period <= price <= s && w <= 2 * s
    requires -price <= 2 * (w * price - (2 * (price * s) - s))
    ensures w * period >= 2 * (s * period) - s
  {
    var short := 2 * s - w;
    Distribute(2 * s, w, price);
    Distribute(2 * s, w, period);
    Commute3(2, price, s);
    MulMonotone(2 * period, price, short);
    Halves(short, period, price, s);
  }

  lemma Halves(short: int, period: int, price: int, s: int)
    requires 2 * period * short <= price * short && 2 * (short * price) <= 2 * s + price && price <= s && s > 0
    ensures short * period <= s
  {
    assert 2 * period * short == 2 * (short * period);
  }

  /** Over-reporting with quotients as the code rounds them: as OverreportsByAPeriod, for twice
      the period up to the price and the price up to 10^d. */
  lemma OverreportsRounded(a: Account, d: nat)
    requires 0 < 2 * a.billingPeriod <= a.PeriodPrice() <= Pow10(d)
    ensures var b := a.(availableFunds := 2 * a.PeriodPrice() - 1);
            && b.HasSufficientFunds(a.lastPayout, Places(d))
            && b.RunOut() - a.lastPayout == a.PeriodMs()
            && b.ExpiresIn(a.lastPayout, Places(d)) == Num(2 * a.billingPeriod - 1)
  {
    var b := a.(availableFunds := 2 * a.PeriodPrice() - 1);
    OnePeriodLeft(b);
    FundedAtPayout(b, d);
    NothingElapsed(b.PeriodMs(), d);
    var u, w, x := RoundedExpiresInClosedForm(b, b.lastPayout, d);
    NothingDue(u, b.PeriodPrice(), Pow10(d));
    AlmostTwiceRounded(b.PeriodPrice(), b.billingPeriod, Pow10(d), w);
  }

  lemma FundedAtPayout(b: Account, d: nat)
    requires b.billingPeriod > 0 && b.PeriodPrice() > 0 && b.availableFunds / b.PeriodPrice() >= 1
    ensures b.HasSufficientFunds(b.lastPayout, Places(d))
  {
    var v := RoundedElapsedPeriods(b, b.lastPayout, d);
    NothingElapsed(b.PeriodMs(), d);
    SufficientForPeriods(b, b.lastPayout, Places(d), v);
  }

  lemma NothingDue(u: int, price: int, s: int)
    requires u == 0 && s > 0
    ensures Product(u, price) / s == 0
  {
  }

  /** The second is really lost: price 3, period 3 s and one period prepaid. After two seconds
      one is left, and at the default precision expiresIn says 0. */
  lemma UnderreportsByASecond()
    ensures var a := Account(1, 3, 3, 3, 0);
            && a.HasSufficientFunds(2000, DECIMAL_PLACES)
            && a.RunOut() - 2000 == 1000
            && a.ExpiresIn(2000, DECIMAL_PLACES) == Num(0)
  {
    var a := Account(1, 3, 3, 3, 0);
    OnePeriodPrepaid(a);
    var u, w, x := RoundedExpiresInClosedForm(a, 2000, 20);
    Thirds(Pow10(20));
  }

  lemma OnePeriodPrepaid(a: Account)
    requires a == Account(1, 3, 3, 3, 0)
    ensures a.PeriodPrice() == 3 && a.PeriodMs() == 3000 && a.RunOut() == 3000
    ensures a.HasSufficientFunds(2000, DECIMAL_PLACES)
    ensures Pow10(20) == 100000000000000000000
  {
    assert Product(1, 3) == 3 && Product(1, 3000) == 3000;
    assert Pow10(10) == 10000000000;
    assert Pow10(15) == 100000 * Pow10(10);
    FundedUntilRunOut(a, 2000);
  }

  /** Two thirds are rounded up, so that all but one third of the balance is due; and a third
      is rounded down. */
  lemma Thirds(s: int)
    requires s == 100000000000000000000
    ensures Product(NearestQuotient(2000 * s, 3000), 3) / s == 2
    ensures Product(NearestQuotient(1 * s, 3), 3) / s == 0
  {
  }

  // ----- In the columns themselves -----

  /** expiresIn from the columns, with exact quotients: 0 once the funds are gone, and before
      that the seconds that the balance less the payout so far buys. */
  lemma ExpiresInColumns(a: Account, now: int)
    requires a.billingPeriod > 0 && a.size * a.billingPrice > 0
    ensures var price, ms := a.size * a.billingPrice, 1000 * a.billingPeriod;
            var e, runOut := now - a.lastPayout, a.lastPayout + (a.availableFunds / price) * ms;
            && (now >= runOut ==> a.ExpiresIn(now, Exact) == Num(0))
            && (now < runOut ==>
                  var left := a.availableFunds - (e * price) / ms;
                  a.ExpiresIn(now, Exact) == Num((left * a.billingPeriod) / price))
  {
    RunOutInColumns(a);
    SufficientUntilRunOut(a, now);
    if now < a.RunOut() {
      ExpiresInClosedForm(a, now);
    } else {
      ExpiresInIsNumber(a, now, Exact);
    }
  }
}

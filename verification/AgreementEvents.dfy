/** The agreement events of the storage contract and the blockchain strategy's handlers,
    which apply each event's change to the stored row. */
module AgreementEvents {
  import opened Wrappers
  import opened FloorArithmetic
  import opened BigNumbers
  import opened Billing
  import opened Outcomes
  import opened PinJobs
  import opened Jobs
  import opened Pinning
  import opened Agreements

  /** The agreement reference is a hash of consumer, data and token; here it is any string.
      The account of a new agreement carries its first balance and its block's date. */
  datatype Event =
    | NewAgreement(reference: Reference, provider: string, dataReference: string, account: Account)
    | AgreementStopped(reference: Reference)
    | AgreementFundsDeposited(reference: Reference, amount: nat)
    | AgreementFundsWithdrawn(reference: Reference, amount: nat)
    | AgreementFundsPayout(reference: Reference, amount: nat, date: int)
    | OfferEvent(provider: string)
  {
    /** Events about an existing agreement; they carry no provider. */
    predicate AboutAgreement() {
      AgreementStopped? || AgreementFundsDeposited? || AgreementFundsWithdrawn? || AgreementFundsPayout?
    }
  }

  // ----- Table writes -----

  /** Creating a row fills in the defaults; on an existing row only the listed columns are
      written, and isActive is not one of them. */
  function Upsert(rows: Table, e: Event): Table
    requires e.NewAgreement?
  {
    var active := e.reference in rows ==> rows[e.reference].isActive;
    rows[e.reference := Agreement(e.dataReference, active, None, e.account)]
  }

  function AccountAfter(a: Account, e: Event): Account
    requires e.AboutAgreement()
  {
    match e
    case AgreementFundsDeposited(_, amount) => a.(availableFunds := a.availableFunds + amount)
    case AgreementFundsWithdrawn(_, amount) => a.(availableFunds := a.availableFunds - amount)
    case AgreementFundsPayout(_, amount, date) =>
      a.(availableFunds := a.availableFunds - amount, lastPayout := date)
    case _ => a
  }

  function RowAfter(row: Agreement, e: Event): Agreement
    requires e.AboutAgreement()
  {
    row.(isActive := row.isActive && !e.AgreementStopped?, account := AccountAfter(row.account, e))
  }

  /** The table after one handler; an unknown agreement is an error and writes nothing. */
  function Write(rows: Table, e: Event): Table {
    match e
    case NewAgreement(_, _, _, _) => Upsert(rows, e)
    case OfferEvent(_) => rows
    case _ => if e.reference in rows then rows[e.reference := RowAfter(rows[e.reference], e)] else rows
  }

  predicate Missing(rows: Table, e: Event) {
    e.AboutAgreement() && e.reference !in rows
  }

  // ----- Handlers with their side effects -----

  /** What the outside world does while one event is handled: whether the query for the block's
      date or the write of the row fails, what befalls the attempts of the pin job, the node's
      reply to an unpin, and whether the broadcast fails. */
  datatype World = World(writeBroken: bool, tries: nat -> Try, unpin: Reply, broadcastBroken: bool)

  datatype Handled = Handled(state: State, thrown: bool)

  function Announce(s: State, code: Code, reference: Reference): State {
    s.(notices := s.notices + [Notice(code, reference)])
  }

  /** The pin job of an agreement, and the record of how it ended. */
  function PinFor(s: State, reference: Reference, retries: int, w: World): Handled
    requires reference in s.rows
  {
    var row := s.rows[reference];
    var result := Pin(s.pinned, row.dataReference, row.account.size, w.tries, retries);
    Handled(s.(pinned := result.pinned, jobs := s.jobs[reference := result.outcome]), result.outcome.Failed?)
  }

  function Handle(s: State, e: Event, manager: bool, retries: int, w: World): Handled {
    var written := s.(rows := Write(s.rows, e));
    if Missing(s.rows, e) || (w.writeBroken && !e.OfferEvent?) then Handled(s, true)
    else if !manager then Handled(written, false)
    else match e
      case NewAgreement(reference, _, _, _) =>
        if w.broadcastBroken then Handled(written, true)
        else PinFor(Announce(written, IAgreementNew, reference), reference, retries, w)
      case AgreementStopped(reference) =>
        var hash := written.rows[reference].dataReference;
        var unpinned := written.(pinned := UnpinPins(written.pinned, hash, w.unpin));
        if !w.unpin.Worked? || w.broadcastBroken then Handled(unpinned, true)
        else Handled(Announce(unpinned, IAgreementStopped, reference), false)
      case _ => Handled(written, false)
  }

  /** The service's own copy of that state, updated step by step; the pins are the node's. */
  class Service {
    const retries: int
    const node: IpfsNode
    var rows: Table
    var notices: seq<Notice>
    var jobs: map<Reference, Outcome>

    ghost function View(): State
      reads this, node
    {
      State(rows, node.pinned, notices, jobs)
    }

    constructor (retries: int)
      ensures View() == EMPTY_STATE && this.retries == retries && fresh(node)
    {
      this.retries := retries;
      node := new IpfsNode();
      rows, notices, jobs := map[], [], map[];
    }

    method Broadcast(code: Code, reference: Reference, broken: bool) returns (thrown: bool)
      modifies this`notices
      ensures thrown == broken
      ensures View() == if broken then old(View()) else Announce(old(View()), code, reference)
    {
      if !broken {
        notices := notices + [Notice(code, reference)];
      }
      thrown := broken;
    }

    method Unpin(hash: string, removal: Reply) returns (reply: UnpinReply)
      modifies node
      ensures reply == UnpinAnswer(old(node.pinned), hash, removal)
      ensures node.pinned == UnpinPins(old(node.pinned), hash, removal)
    {
      if removal.Worked? && hash !in node.pinned {
        return WasNotPinned;
      }
      var thrown := node.RemovePin(hash, removal);
      reply := if thrown then UnpinFailed else Unpinned;
    }

    method PinAgreement(reference: Reference, w: World) returns (thrown: bool)
      requires reference in rows
      modifies this`jobs, node
      ensures Handled(View(), thrown) == PinFor(old(View()), reference, retries, w)
    {
      var manager := new JobsManager(retries, 0, false);
      var job := new Job(node, JobName(rows[reference].dataReference, reference, rows[reference].account.size));
      var outcome := manager.Run(job, w.tries);
      jobs := jobs[reference := outcome];
      thrown := outcome.Failed?;
    }

    method NewAgreement(e: Event, manager: bool, w: World) returns (thrown: bool)
      requires e.NewAgreement?
      modifies this, node
      ensures Handled(View(), thrown) == Handle(old(View()), e, manager, retries, w)
    {
      if w.writeBroken {
        return true;
      }
      if e.reference in rows {
        rows := rows[e.reference := rows[e.reference].(
          dataReference := e.dataReference, account := e.account, expiredAtBlockNumber := None)];
      } else {
        rows := rows[e.reference := Agreement(e.dataReference, true, None, e.account)];
      }
      if !manager {
        return false;
      }
      thrown := Broadcast(IAgreementNew, e.reference, w.broadcastBroken);
      if thrown {
        return;
      }
      thrown := PinAgreement(e.reference, w);
    }

    method AgreementStopped(e: Event, manager: bool, w: World) returns (thrown: bool)
      requires e.AgreementStopped?
      modifies this, node
      ensures Handled(View(), thrown) == Handle(old(View()), e, manager, retries, w)
    {
      if e.reference !in rows {
        return true;
      }
      if w.writeBroken {
        return true;
      }
      var agreement := rows[e.reference];
      rows := rows[e.reference := agreement.(isActive := false)];
      if !manager {
        return false;
      }
      var reply := Unpin(agreement.dataReference, w.unpin);
      if reply == UnpinFailed {
        return true;
      }
      thrown := Broadcast(IAgreementStopped, e.reference, w.broadcastBroken);
    }

    method FundsChanged(e: Event, manager: bool, w: World) returns (thrown: bool)
      requires e.AgreementFundsDeposited? || e.AgreementFundsWithdrawn? || e.AgreementFundsPayout?
      modifies this`rows
      ensures Handled(View(), thrown) == Handle(old(View()), e, manager, retries, w)
    {
      if e.reference !in rows || w.writeBroken {
        return true;
      }
      var agreement := rows[e.reference];
      var account := agreement.account;
      match e {
        case AgreementFundsDeposited(_, amount) =>
          account := account.(availableFunds := account.availableFunds + amount);
        case AgreementFundsWithdrawn(_, amount) =>
          account := account.(availableFunds := account.availableFunds - amount);
        case AgreementFundsPayout(_, amount, date) =>
          account := account.(lastPayout := date);
          account := account.(availableFunds := account.availableFunds - amount);
      }
      rows := rows[e.reference := agreement.(account := account)];
      thrown := false;
    }
  }

  // ----- The ledger of one agreement -----

  /** The account of agreement r after one more event. */
  function LedgerStep(account: Option<Account>, e: Event, r: Reference): Option<Account> {
    if e.NewAgreement? && e.reference == r then Some(e.account)
    else if e.AboutAgreement() && e.reference == r && account.Some? then Some(AccountAfter(account.value, e))
    else account
  }

  /** What these events make of an agreement's account: the latest creation, plus every deposit,
      minus every withdrawal and payout since. Defined on the history, without any table. */
  function Ledger(events: seq<Event>, r: Reference): Option<Account> {
    if events == [] then None
    else LedgerStep(Ledger(events[..|events| - 1], r), events[|events| - 1], r)
  }

  /** The events about agreement r: its creations and what happened to it. */
  function About(events: seq<Event>, r: Reference): seq<Event> {
    if events == [] then [] else
      var about, e := About(events[..|events| - 1], r), events[|events| - 1];
      if !e.OfferEvent? && e.reference == r then about + [e] else about
  }

  /** The rows are the contract's agreements, with the contract's accounts. */
  ghost predicate Mirrors(rows: Table, history: seq<Event>) {
    forall r: Reference ::
      && (r in rows <==> Ledger(history, r).Some?)
      && (r in rows ==> rows[r].account == Ledger(history, r).value)
  }

  function BalanceChange(e: Event, r: Reference): int {
    match e
    case AgreementFundsDeposited(q, amount) => if q == r then amount as int else 0
    case AgreementFundsWithdrawn(q, amount) => if q == r then 0 - amount else 0
    case AgreementFundsPayout(q, amount, _) => if q == r then 0 - amount else 0
    case _ => 0
  }

  function BalanceChanges(events: seq<Event>, r: Reference): int {
    if events == [] then 0
    else BalanceChanges(events[..|events| - 1], r) + BalanceChange(events[|events| - 1], r)
  }

  predicate CreatesAt(events: seq<Event>, i: int, r: Reference) {
    0 <= i < |events| && events[i].NewAgreement? && events[i].reference == r
  }

  predicate PaysAt(events: seq<Event>, i: int, r: Reference) {
    0 <= i < |events| && events[i].AgreementFundsPayout? && events[i].reference == r
  }

  /** The ledger in words: the balance is the latest NewAgreement's plus all changes since,
      the terms are that NewAgreement's, and the payout date is that of the latest
      NewAgreement or payout. */
  lemma {:induction false} LedgerMeaning(events: seq<Event>, r: Reference, c: nat)
    requires CreatesAt(events, c, r)
    requires forall i :: c < i < |events| ==> !CreatesAt(events, i, r)
    ensures Ledger(events, r).Some?
    ensures var a := Ledger(events, r).value;
            && a.availableFunds == events[c].account.availableFunds + BalanceChanges(events[c + 1..], r)
            && a.size == events[c].account.size
            && a.billingPeriod == events[c].account.billingPeriod
            && a.billingPrice == events[c].account.billingPrice
            && (forall p :: PaysAt(events, p, r) && c < p && (forall i :: p < i < |events| ==> !PaysAt(events, i, r))
                  ==> a.lastPayout == events[p].date)
            && ((forall i :: c < i < |events| ==> !PaysAt(events, i, r))
                  ==> a.lastPayout == events[c].account.lastPayout)
  {
    var n := |events| - 1;
    var before, e := events[..n], events[n];
    if c == n {
      assert events[c + 1..] == [];
    } else {
      assert CreatesAt(before, c, r);
      forall i | c < i < n
        ensures !CreatesAt(before, i, r)
      {
        assert !CreatesAt(events, i, r);
      }
      LedgerMeaning(before, r, c);
      assert events[c + 1..][..n - c - 1] == before[c + 1..];
      assert !CreatesAt(events, n, r);
      forall i | 0 <= i < n
        ensures PaysAt(events, i, r) <==> PaysAt(before, i, r)
      {
      }
      assert PaysAt(events, n, r) <==> e.AgreementFundsPayout? && e.reference == r;
    }
  }

  // ----- Payouts and the run-out instant -----

  function AccountAfterAll(a: Account, events: seq<Event>): Account
    requires forall i :: 0 <= i < |events| ==> events[i].AboutAgreement()
  {
    if events == [] then a
    else AccountAfter(AccountAfterAll(a, events[..|events| - 1]), events[|events| - 1])
  }

  /** A payout of exactly toBePayedOut at its date, with funds sufficient at that date. */
  predicate PayoutDue(a: Account, e: Event, p: Precision) {
    && e.AgreementFundsPayout?
    && a.HasSufficientFunds(e.date, p)
    && a.ToBePayedOut(e.date, true, p) == Num(e.amount)
  }

  predicate PayoutsDue(a: Account, payouts: seq<Event>, p: Precision) {
    && (forall i :: 0 <= i < |payouts| ==> payouts[i].AgreementFundsPayout?)
    && (forall i :: 0 <= i < |payouts| ==> DueAt(a, payouts, i, p))
  }

  /** Payout i is due on what the payouts before it left. */
  predicate DueAt(a: Account, payouts: seq<Event>, i: int, p: Precision)
    requires forall i :: 0 <= i < |payouts| ==> payouts[i].AgreementFundsPayout?
    requires 0 <= i < |payouts|
  {
    PayoutDue(AccountAfterAll(a, payouts[..i]), payouts[i], p)
  }

  /** Rounding cannot lift the elapsed periods of this account. */
  predicate RoundingIsHarmless(a: Account, p: Precision) {
    p.Exact? || a.PeriodMs() < 2 * Pow10(p.digits)
  }

  lemma WholePeriods(a: Account, now: int, p: Precision) returns (v: int)
    requires a.billingPeriod > 0
    ensures a.PeriodsSinceLastPayout(now, true, p) == Num(v)
    ensures v >= (now - a.lastPayout) / a.PeriodMs()
    ensures RoundingIsHarmless(a, p) ==> v == (now - a.lastPayout) / a.PeriodMs()
  {
    ElapsedPeriods(a, now);
    v := (now - a.lastPayout) / a.PeriodMs();
    if p.Places? {
      v := RoundedFloorNotBelow(now - a.lastPayout, a.PeriodMs(), p.digits);
      if RoundingIsHarmless(a, p) {
        ElapsedPeriodsRounded(a, now, p.digits);
        assert forall x: int, y: int :: Num(x) == Num(y) ==> x == y;
      }
    }
  }

  lemma JustPaid(a: Account, p: Precision)
    requires a.billingPeriod > 0
    ensures a.PeriodsSinceLastPayout(a.lastPayout, true, p) == Num(0)
  {
  }

  /** One such payout, at any precision: the funds story at its date does not change, and the
      run-out instant moves on by the time elapsed beyond the periods counted. */
  lemma PayoutMovesRunOut(a: Account, e: Event, p: Precision) returns (v: int)
    requires a.billingPeriod > 0 && a.PeriodPrice() > 0 && PayoutDue(a, e, p)
    ensures a.PeriodsSinceLastPayout(e.date, true, p) == Num(v) && e.amount == Product(v, a.PeriodPrice())
    ensures v >= (e.date - a.lastPayout) / a.PeriodMs()
    ensures RoundingIsHarmless(a, p) ==> v == (e.date - a.lastPayout) / a.PeriodMs()
    ensures var after := AccountAfter(a, e);
            && after.HasSufficientFunds(e.date, p)
            && after.RunOut() == a.RunOut() + (e.date - a.lastPayout) - Product(v, a.PeriodMs())
  {
    var price := a.PeriodPrice();
    v := WholePeriods(a, e.date, p);
    SufficientForPeriods(a, e.date, p, v);
    PeriodsPaid(a.availableFunds, price, v, a.PeriodMs());
    assert e.amount == Product(v, price) by {
      assert forall x: int, y: int :: Num(x) == Num(y) ==> x == y;
    }
    var after := AccountAfter(a, e);
    JustPaid(after, p);
    SufficientForPeriods(after, e.date, p, 0);
  }

  lemma PeriodsPaid(funds: int, price: int, v: int, ms: int)
    requires price > 0 && v <= funds / price
    ensures Product(v, price) <= funds
    ensures (funds - Product(v, price)) / price == funds / price - v
    ensures Product(funds / price - v, ms) == Product(funds / price, ms) - Product(v, ms)
  {
    var n := funds / price;
    DivBounds(funds, price);
    MulMonotone(v, n, price);
    assert (n - v) * price == n * price - v * price;
    DivUnique(funds - v * price, price, n - v);
    assert (n - v) * ms == n * ms - v * ms;
  }

  /** With harmless rounding the run-out instant moves on by the age of the started period. */
  lemma PayoutStep(a: Account, e: Event, p: Precision)
    requires a.billingPeriod > 0 && a.PeriodPrice() > 0 && PayoutDue(a, e, p) && RoundingIsHarmless(a, p)
    ensures var after := AccountAfter(a, e);
            && after.HasSufficientFunds(e.date, p)
            && after.RunOut() == a.RunOut() + (e.date - a.lastPayout) % a.PeriodMs()
            && a.RunOut() <= after.RunOut() < a.RunOut() + a.PeriodMs()
  {
    var v := PayoutMovesRunOut(a, e, p);
    DivBounds(e.date - a.lastPayout, a.PeriodMs());
  }

  lemma AnotherPeriod(m: int, ms: int)
    ensures Product(m, ms) == Product(m - 1, ms) + ms
  {
  }

  lemma EarlierPayoutsDue(a: Account, payouts: seq<Event>, p: Precision)
    requires payouts != [] && PayoutsDue(a, payouts, p)
    ensures var m := |payouts| - 1;
            PayoutsDue(a, payouts[..m], p) && PayoutDue(AccountAfterAll(a, payouts[..m]), payouts[m], p)
  {
    var m := |payouts| - 1;
    forall i | 0 <= i < m
      ensures DueAt(a, payouts[..m], i, p)
    {
      assert DueAt(a, payouts, i, p);
      assert payouts[..m][..i] == payouts[..i];
    }
    assert DueAt(a, payouts, m, p);
  }

  /** Over m payouts the run-out instant never moves earlier, and moves later by less than m
      billing periods in all; the last payout leaves the funds sufficient at its date. So it
      is with exact quotients, and at d decimals for periods below 2 * 10^d ms. */
  lemma {:induction false} PayoutsKeepRunOut(a: Account, payouts: seq<Event>, p: Precision)
    requires a.billingPeriod > 0 && a.PeriodPrice() > 0 && PayoutsDue(a, payouts, p) && RoundingIsHarmless(a, p)
    ensures var m, after := |payouts|, AccountAfterAll(a, payouts);
            && after.size == a.size && after.billingPeriod == a.billingPeriod && after.billingPrice == a.billingPrice
            && a.RunOut() <= after.RunOut() <= a.RunOut() + Product(m, a.PeriodMs())
            && (m > 0 ==> after.RunOut() < a.RunOut() + Product(m, a.PeriodMs())
                          && after.HasSufficientFunds(payouts[m - 1].date, p))
  {
    var m := |payouts|;
    if m > 0 {
      var earlier, last := payouts[..m - 1], payouts[m - 1];
      EarlierPayoutsDue(a, payouts, p);
      PayoutsKeepRunOut(a, earlier, p);
      var before := AccountAfterAll(a, earlier);
      PayoutStep(before, last, p);
      AnotherPeriod(m, a.PeriodMs());
    }
  }

  /** The payout does not move the run-out instant earlier. */
  predicate NotEarlier(a: Account, e: Event)
    requires a.PeriodPrice() > 0 && e.AgreementFundsPayout?
  {
    a.RunOut() <= AccountAfter(a, e).RunOut()
  }

  /** And that bound is exact: payouts never move the run-out instant earlier, whatever the
      balance and the date, if and only if the period is below 2 * 10^d ms. Beyond it, a payout
      one millisecond before a period is over is charged the whole period. */
  lemma RunOutNeverEarlier(a: Account, d: nat)
    requires a.billingPeriod > 0 && a.PeriodPrice() > 0
    ensures (forall funds: int, e: Event :: PayoutDue(a.(availableFunds := funds), e, Places(d))
              ==> NotEarlier(a.(availableFunds := funds), e))
       <==> a.PeriodMs() < 2 * Pow10(d)
  {
    if a.PeriodMs() < 2 * Pow10(d) {
      forall funds: int, e: Event | PayoutDue(a.(availableFunds := funds), e, Places(d))
        ensures NotEarlier(a.(availableFunds := funds), e)
      {
        PayoutStep(a.(availableFunds := funds), e, Places(d));
      }
    } else {
      var e := ChargedEarly(a, d);
      assert !NotEarlier(a.(availableFunds := e.amount + a.PeriodPrice()), e);
    }
  }

  lemma ChargedEarly(a: Account, d: nat) returns (e: Event)
    requires a.billingPeriod > 0 && a.PeriodPrice() > 0 && a.PeriodMs() >= 2 * Pow10(d)
    ensures e.AgreementFundsPayout?
    ensures var b := a.(availableFunds := e.amount + a.PeriodPrice());
            PayoutDue(b, e, Places(d)) && !NotEarlier(b, e)
  {
    var ms, price := a.PeriodMs(), a.PeriodPrice();
    var date := a.lastPayout + ms - 1;
    var v := WholePeriods(a, date, Places(d));
    FloorLostFrom(ms, d);
    DivUnique(ms - 1, ms, 0);
    e := AgreementFundsPayout("", Product(v, price), date);
    var b := a.(availableFunds := e.amount + price);
    DivUnique(b.availableFunds, price, v + 1) by {
      assert (v + 1) * price == v * price + price;
    }
    SufficientForPeriods(b, date, Places(d), v);
    var w := PayoutMovesRunOut(b, e, Places(d));
    MulMonotone(1, v, ms);
    assert forall x: int, y: int :: Num(x) == Num(y) ==> x == y;
  }
}

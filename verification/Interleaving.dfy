/** The blockchain strategy with its awaits: the event handlers run one at a time, but any
    number of collector runs interleave with them and with each other. A loaded row is a
    snapshot; a save writes only the columns changed on it. Unpins and broadcasts touch no
    row, so they are folded into the save that follows them. */
module Interleaving {
  import opened Wrappers
  import opened FloorArithmetic
  import opened BigNumbers
  import opened Billing
  import opened Agreements
  import opened AgreementEvents
  import opened BlockchainStream
  import opened Gc

  datatype Handler =
    | Idle
    | Loading(event: Event)
    | Saving(event: Event, snapshot: Agreement)

  datatype Loaded = Loaded(reference: Reference, snapshot: Agreement)

  datatype Collector =
    | Marking(todo: seq<Loaded>)
    | Collecting(todo: seq<Loaded>)

  /** One collector run: its block number and confirmations, and where it is. */
  datatype CollectorRun =
    | Started(number: int, confirmations: int)
    | Looping(number: int, confirmations: int, pass: Collector)

  /** `history` is every event the stream has delivered and the handlers are done saving. */
  datatype Shared = Shared(rows: Table, history: seq<Event>, handler: Handler, runs: map<nat, CollectorRun>)

  const START := Shared(map[], [], Idle, map[])

  datatype Action =
    | Take(event: Event)
    | Load
    | Save
    | Spawn(run: nat, number: int, confirmations: int)
    | FindUnmarked(run: nat, found: seq<Loaded>)
    | MarkNext(run: nat, now: int)
    | FindRipe(run: nat, found: seq<Loaded>)
    | CollectNext(run: nat, now: int)
    | Abort(run: nat)

  /** The run is about to collect the first of the rows it has loaded. */
  predicate AtRow(run: CollectorRun) {
    run.Looping? && run.pass.Collecting? && run.pass.todo != []
  }

  /** A column after a save: written only if it was changed on the instance. */
  function Column<T(==)>(current: T, loaded: T, value: T): T {
    if value == loaded then current else value
  }

  /** The stored row after the handler saves its changed instance over it. */
  function SavedRow(current: Agreement, snapshot: Agreement, e: Event): Agreement
    requires e.AboutAgreement()
  {
    var changed := RowAfter(snapshot, e);
    var stored, loaded, after := current.account, snapshot.account, changed.account;
    current.(
      isActive := Column(current.isActive, snapshot.isActive, changed.isActive),
      account := stored.(
        availableFunds := Column(stored.availableFunds, loaded.availableFunds, after.availableFunds),
        lastPayout := Column(stored.lastPayout, loaded.lastPayout, after.lastPayout)))
  }

  predicate AreLoaded(rows: Table, found: seq<Loaded>, wanted: Agreement -> bool) {
    forall i :: 0 <= i < |found| ==>
      found[i].reference in rows && rows[found[i].reference] == found[i].snapshot && wanted(found[i].snapshot)
  }

  function MarkSaved(rows: Table, l: Loaded, number: int, now: int): Table {
    if l.reference in rows && !l.snapshot.Funded(now)
    then rows[l.reference := rows[l.reference].(expiredAtBlockNumber := Some(number))] else rows
  }

  function CollectSaved(rows: Table, l: Loaded, now: int): Table {
    if l.reference !in rows then rows
    else if l.snapshot.Funded(now) then rows[l.reference := rows[l.reference].(expiredAtBlockNumber := None)]
    else rows[l.reference := rows[l.reference].(isActive := false)]
  }

  /** The rows loaded by a query hold their current values; the query may return any of them. */
  ghost predicate Next(offerId: string, s: Shared, a: Action, t: Shared) {
    match a
    case Take(e) =>
      s.handler.Idle? &&
      t == if Admitted(offerId, s.rows, e) && !e.OfferEvent? then s.(handler := Loading(e))
           else s.(history := s.history + [e])
    case Load =>
      s.handler.Loading? && s.handler.event.AboutAgreement() &&
      t == if s.handler.event.reference in s.rows
           then s.(handler := Saving(s.handler.event, s.rows[s.handler.event.reference]))
           else s.(handler := Idle, history := s.history + [s.handler.event])
    case Save =>
      if s.handler.Loading? && s.handler.event.NewAgreement? then
        var e := s.handler.event;
        t == s.(rows := Upsert(s.rows, e), handler := Idle, history := s.history + [e])
      else if s.handler.Saving? && s.handler.event.AboutAgreement() && s.handler.event.reference in s.rows then
        var e := s.handler.event;
        t == s.(rows := s.rows[e.reference := SavedRow(s.rows[e.reference], s.handler.snapshot, e)],
                handler := Idle, history := s.history + [e])
      else false
    case Spawn(g, number, confirmations) =>
      g !in s.runs && t == s.(runs := s.runs[g := Started(number, confirmations)])
    case FindUnmarked(g, found) =>
      g in s.runs && s.runs[g].Started? && AreLoaded(s.rows, found, Unmarked) &&
      t == s.(runs := s.runs[g := Looping(s.runs[g].number, s.runs[g].confirmations, Marking(found))])
    case MarkNext(g, now) =>
      g in s.runs && s.runs[g].Looping? && s.runs[g].pass.Marking? && s.runs[g].pass.todo != [] &&
      var r := s.runs[g];
      t == s.(rows := MarkSaved(s.rows, r.pass.todo[0], r.number, now),
              runs := s.runs[g := r.(pass := Marking(r.pass.todo[1..]))])
    case FindRipe(g, found) =>
      g in s.runs && s.runs[g].Looping? && s.runs[g].pass == Marking([]) &&
      var r := s.runs[g];
      AreLoaded(s.rows, found, (row: Agreement) => Ripe(row, Moment(r.number, r.confirmations, 0, 0))) &&
      t == s.(runs := s.runs[g := r.(pass := Collecting(found))])
    case CollectNext(g, now) =>
      g in s.runs && s.runs[g].Looping? && s.runs[g].pass.Collecting? && s.runs[g].pass.todo != [] &&
      var r := s.runs[g];
      t == s.(rows := CollectSaved(s.rows, r.pass.todo[0], now),
              runs := s.runs[g := r.(pass := Collecting(r.pass.todo[1..]))])
    case Abort(g) =>
      t == s.(runs := s.runs - {g})
  }

  ghost predicate Follows(offerId: string, actions: seq<Action>, states: seq<Shared>) {
    && |states| == |actions| + 1
    && forall i :: 0 <= i < |actions| ==> Next(offerId, states[i], actions[i], states[i + 1])
  }

  ghost predicate IsRun(offerId: string, actions: seq<Action>, states: seq<Shared>) {
    Follows(offerId, actions, states) && states[0] == START
  }

  /** A collector's step on a row that has not changed since it was loaded is what the collector
      does to that row when nothing interleaves. */
  lemma UninterleavedIsGc(rows: Table, l: Loaded, m: Moment)
    requires l.reference in rows && rows[l.reference] == l.snapshot
    ensures Unmarked(l.snapshot) ==>
              MarkSaved(rows, l, m.number, m.marking) == rows[l.reference := MarkRow(l.snapshot, m)]
    ensures Ripe(l.snapshot, m) ==>
              CollectSaved(rows, l, m.collecting) == rows[l.reference := CollectRow(l.snapshot, m)]
  {
  }

  // ----- No balance update is lost -----

  predicate StoppedOnce(events: seq<Event>, r: Reference) {
    exists i :: 0 <= i < |events| && events[i] == AgreementStopped(r)
  }

  /** The rows mirror the ledger of our own events; a handler in flight still holds the
      stored account; and an agreement stopped once is inactive. */
  ghost predicate Consistent(offerId: string, s: Shared) {
    var own := OwnEvents(offerId, s.history);
    && Mirrors(s.rows, own)
    && (forall r :: r in s.rows <==> OwnReference(offerId, s.history, r))
    && (forall r :: r in s.rows && StoppedOnce(own, r) ==> !s.rows[r].isActive)
    && (s.handler.Loading? ==> Admitted(offerId, s.rows, s.handler.event) && !s.handler.event.OfferEvent?)
    && (s.handler.Saving? ==>
          && s.handler.event.AboutAgreement()
          && s.handler.event.reference in s.rows
          && s.handler.snapshot.account == s.rows[s.handler.event.reference].account
          && (s.rows[s.handler.event.reference].isActive ==> s.handler.snapshot.isActive))
  }

  /** Two tables that differ only in what collectors write. */
  predicate SameAccounts(rows: Table, other: Table) {
    && rows.Keys == other.Keys
    && forall r :: r in rows ==> rows[r].account == other[r].account && (other[r].isActive ==> rows[r].isActive)
  }

  lemma CollectorSaves(rows: Table, l: Loaded, number: int, now: int)
    ensures SameAccounts(rows, MarkSaved(rows, l, number, now))
    ensures SameAccounts(rows, CollectSaved(rows, l, now))
  {
  }

  lemma CollectorStepConsistent(offerId: string, s: Shared, t: Shared)
    requires Consistent(offerId, s)
    requires SameAccounts(s.rows, t.rows) && t.history == s.history && t.handler == s.handler
    ensures Consistent(offerId, t)
  {
  }

  lemma OwnEventsStep(offerId: string, s: Shared, e: Event)
    requires forall r :: r in s.rows <==> OwnReference(offerId, s.history, r)
    ensures OwnEvents(offerId, s.history + [e])
         == if Admitted(offerId, s.rows, e) then OwnEvents(offerId, s.history) + [e] else OwnEvents(offerId, s.history)
    ensures forall r :: OwnReference(offerId, s.history + [e], r) <==> r in s.rows || OwnCreation(offerId, e, r)
  {
  }

  lemma StoppedOnceStep(events: seq<Event>, e: Event, r: Reference)
    ensures StoppedOnce(events + [e], r) <==> StoppedOnce(events, r) || e == AgreementStopped(r)
  {
    var more := events + [e];
    if StoppedOnce(events, r) {
      var i :| 0 <= i < |events| && events[i] == AgreementStopped(r);
      assert more[i] == AgreementStopped(r);
    }
    if e == AgreementStopped(r) {
      assert more[|events|] == e;
    }
  }

  /** A handler's save is the plain write of its event, because the account it loaded is
      still the stored one; only the collector's columns may have moved. */
  lemma SaveIsWrite(rows: Table, e: Event, snapshot: Agreement)
    requires e.AboutAgreement() && e.reference in rows
    requires snapshot.account == rows[e.reference].account
    requires rows[e.reference].isActive ==> snapshot.isActive
    ensures rows[e.reference := SavedRow(rows[e.reference], snapshot, e)] == Write(rows, e)
  {
  }

  lemma WriteConsistent(offerId: string, s: Shared, e: Event, t: Shared)
    requires Consistent(offerId, s) && Admitted(offerId, s.rows, e)
    requires t == s.(rows := Write(s.rows, e), handler := Idle, history := s.history + [e])
    ensures Consistent(offerId, t)
  {
    var own := OwnEvents(offerId, s.history);
    OwnEventsStep(offerId, s, e);
    WriteFollowsLedger(s.rows, own, e);
    forall r | r in t.rows && StoppedOnce(own + [e], r)
      ensures !t.rows[r].isActive
    {
      StoppedOnceStep(own, e, r);
      if r !in s.rows {
        NoStopBeforeCreation(offerId, s.history, r);
      }
    }
  }

  /** No own event is about an agreement before its creation. */
  lemma {:induction false} NoStopBeforeCreation(offerId: string, history: seq<Event>, r: Reference)
    requires !OwnReference(offerId, history, r)
    ensures !StoppedOnce(OwnEvents(offerId, history), r)
  {
    if history != [] {
      var earlier, e := history[..|history| - 1], history[|history| - 1];
      assert history == earlier + [e];
      OwnReferenceExtends(offerId, earlier, e, r);
      NoStopBeforeCreation(offerId, earlier, r);
      StoppedOnceStep(OwnEvents(offerId, earlier), e, r);
    }
  }

  lemma StepConsistent(offerId: string, s: Shared, a: Action, t: Shared)
    requires Consistent(offerId, s) && Next(offerId, s, a, t)
    ensures Consistent(offerId, t)
  {
    match a {
      case Take(e) =>
        if !Admitted(offerId, s.rows, e) || e.OfferEvent? {
          WriteOrSkip(offerId, s, e, t);
        }
      case Load =>
      case Save =>
        var e := s.handler.event;
        if s.handler.Saving? {
          SaveIsWrite(s.rows, e, s.handler.snapshot);
        }
        WriteConsistent(offerId, s.(handler := Idle), e, t);
      case MarkNext(g, now) =>
        CollectorSaves(s.rows, s.runs[g].pass.todo[0], s.runs[g].number, now);
        CollectorStepConsistent(offerId, s, t);
      case CollectNext(g, now) =>
        CollectorSaves(s.rows, s.runs[g].pass.todo[0], 0, now);
        CollectorStepConsistent(offerId, s, t);
      case _ =>
        CollectorStepConsistent(offerId, s, t);
    }
  }

  /** An event that writes no row: not ours, or about the offer. */
  lemma WriteOrSkip(offerId: string, s: Shared, e: Event, t: Shared)
    requires Consistent(offerId, s) && s.handler.Idle?
    requires !Admitted(offerId, s.rows, e) || e.OfferEvent?
    requires t == s.(history := s.history + [e])
    ensures Consistent(offerId, t)
  {
    if Admitted(offerId, s.rows, e) {
      WriteConsistent(offerId, s, e, t);
    } else {
      OwnEventsStep(offerId, s, e);
    }
  }

  /** Under every interleaving of handlers and collector runs, complete or aborted, each row's
      account is the ledger's: the latest creation's amount plus deposits minus withdrawals
      and payouts since, paid last when the ledger says; and a stop is never undone. */
  lemma {:induction false} NoUpdateIsLost(offerId: string, actions: seq<Action>, states: seq<Shared>, i: nat)
    requires IsRun(offerId, actions, states) && i <= |actions|
    ensures Consistent(offerId, states[i])
    decreases i
  {
    if i == 0 {
    } else {
      NoUpdateIsLost(offerId, actions, states, i - 1);
      StepConsistent(offerId, states[i - 1], actions[i - 1], states[i]);
    }
  }

  // ----- When a collection was right -----

  /** Step i is the collector handling this loaded row. */
  predicate Collects(actions: seq<Action>, states: seq<Shared>, i: nat, l: Loaded)
    requires i < |actions| && i < |states|
  {
    && actions[i].CollectNext?
    && actions[i].run in states[i].runs
    && IsCollecting(states[i].runs[actions[i].run], l)
    && states[i].runs[actions[i].run].pass.todo[0] == l
  }

  predicate IsCollecting(run: CollectorRun, l: Loaded) {
    run.Looping? && run.pass.Collecting? && l in run.pass.todo
  }

  /** The query by which collector run g loaded this row, which was active, and marked at least
      the run's confirmations before the run's block. */
  predicate Queried(actions: seq<Action>, states: seq<Shared>, j: nat, g: nat, l: Loaded)
    requires j < |actions| && j < |states|
  {
    && actions[j].FindRipe? && actions[j].run == g && g in states[j].runs
    && l.reference in states[j].rows && states[j].rows[l.reference] == l.snapshot
    && l.snapshot.isActive && l.snapshot.expiredAtBlockNumber.Some?
    && l.snapshot.expiredAtBlockNumber.value + states[j].runs[g].confirmations <= states[j].runs[g].number
  }

  lemma CollectingBefore(offerId: string, s: Shared, a: Action, t: Shared, g: nat, l: Loaded)
    requires Next(offerId, s, a, t) && g in t.runs && IsCollecting(t.runs[g], l)
    ensures s.history <= t.history
    ensures || (g in s.runs && IsCollecting(s.runs[g], l))
            || Queried([a], [s], 0, g, l)
    ensures g in s.runs && s.runs[g].number == t.runs[g].number && s.runs[g].confirmations == t.runs[g].confirmations
  {
  }

  /** What a collector run works on was loaded by its own query, from the rows of that moment. */
  lemma {:induction false} SnapshotHasOrigin(
    offerId: string, actions: seq<Action>, states: seq<Shared>, i: nat, g: nat, l: Loaded) returns (j: nat)
    requires IsRun(offerId, actions, states) && i <= |actions|
    requires g in states[i].runs && IsCollecting(states[i].runs[g], l)
    ensures j < i && Queried(actions, states, j, g, l) && states[j].history <= states[i].history
    ensures states[j].runs[g].number == states[i].runs[g].number
    decreases i
  {
    assert i > 0;
    CollectingBefore(offerId, states[i - 1], actions[i - 1], states[i], g, l);
    if g in states[i - 1].runs && IsCollecting(states[i - 1].runs[g], l) {
      j := SnapshotHasOrigin(offerId, actions, states, i - 1, g, l);
    } else {
      j := i - 1;
    }
  }

  /** The event changes the account of r. */
  predicate ChangesAccount(e: Event, r: Reference) {
    (e.NewAgreement? || (e.AboutAgreement() && !e.AgreementStopped?)) && e.reference == r
  }

  lemma LedgerUnchangedBy(offerId: string, history: seq<Event>, e: Event, r: Reference)
    requires !ChangesAccount(e, r)
    ensures Ledger(OwnEvents(offerId, history + [e]), r) == Ledger(OwnEvents(offerId, history), r)
  {
  }

  /** The account charges, and rounding does not touch its periods. */
  predicate Ordinary(a: Account) {
    a.PeriodPrice() > 0 && a.PeriodMs() < 2 * Pow10(20)
  }

  lemma OrdinaryFunded(a: Account, now: int)
    requires Ordinary(a)
    ensures a.HasSufficientFunds(now, DECIMAL_PLACES) <==> now < a.RunOut()
  {
    FundedUntilRunOut(a, now);
  }

  /** The account a collector run loaded is the one the ledger had at its query. */
  lemma SnapshotIsLedger(
    offerId: string, actions: seq<Action>, states: seq<Shared>, i: nat, g: nat, l: Loaded) returns (j: nat)
    requires IsRun(offerId, actions, states) && i <= |actions|
    requires g in states[i].runs && IsCollecting(states[i].runs[g], l)
    ensures j < i && Queried(actions, states, j, g, l) && states[j].history <= states[i].history
    ensures states[j].runs[g].number == states[i].runs[g].number
    ensures Ledger(OwnEvents(offerId, states[j].history), l.reference) == Some(l.snapshot.account)
  {
    j := SnapshotHasOrigin(offerId, actions, states, i, g, l);
    NoUpdateIsLost(offerId, actions, states, j);
  }

  /** Some event saved after `before` changed the account of r. */
  ghost predicate ChangedSince(before: seq<Event>, history: seq<Event>, r: Reference) {
    exists k :: |before| <= k < |history| && ChangesAccount(history[k], r)
  }

  lemma UnchangedEarlier(before: seq<Event>, history: seq<Event>, r: Reference)
    requires before <= history && |before| < |history| && !ChangedSince(before, history, r)
    ensures var n := |history| - 1;
            before <= history[..n] && !ChangedSince(before, history[..n], r) && !ChangesAccount(history[n], r)
  {
    var n := |history| - 1;
    assert forall k :: |before| <= k < n ==> history[..n][k] == history[k];
  }

  lemma {:induction false} LedgerUnlessChanged(offerId: string, before: seq<Event>, history: seq<Event>, r: Reference)
    requires before <= history && !ChangedSince(before, history, r)
    ensures Ledger(OwnEvents(offerId, history), r) == Ledger(OwnEvents(offerId, before), r)
    decreases |history|
  {
    if |before| == |history| {
      assert before == history;
    } else {
      var n := |history| - 1;
      var earlier, e := history[..n], history[n];
      assert history == earlier + [e];
      UnchangedEarlier(before, history, r);
      LedgerUnlessChanged(offerId, before, earlier, r);
      LedgerUnchangedBy(offerId, earlier, e, r);
    }
  }

  lemma CollectDeactivates(s: Shared, t: Shared, offerId: string, g: nat, now: int, l: Loaded)
    requires Next(offerId, s, CollectNext(g, now), t)
    requires g in s.runs && IsCollecting(s.runs[g], l) && s.runs[g].pass.todo[0] == l
    requires var r := l.reference; r in s.rows && s.rows[r].isActive && r in t.rows && !t.rows[r].isActive
    ensures !l.snapshot.Funded(now) && t.rows[l.reference].account == s.rows[l.reference].account
  {
  }

  /** Under every interleaving, when the collector deactivates a row at step i: the agreement
      had run out, at the collector's clock, by what the ledger said when its query loaded the
      row at step j. The deactivated row is funded all the same exactly when by what the ledger
      says at step i it has not run out; and then an event between the two steps changed its
      account. */
  lemma DeactivatesFundedExactly(offerId: string, actions: seq<Action>, states: seq<Shared>, i: nat, l: Loaded)
    returns (j: nat, queried: Account, stored: Account)
    requires IsRun(offerId, actions, states) && i < |actions| && Collects(actions, states, i, l)
    requires var r := l.reference;
             && r in states[i].rows && states[i].rows[r].isActive
             && r in states[i + 1].rows && !states[i + 1].rows[r].isActive
    ensures j < i && Queried(actions, states, j, actions[i].run, l)
    ensures Ledger(OwnEvents(offerId, states[j].history), l.reference) == Some(queried)
    ensures Ledger(OwnEvents(offerId, states[i].history), l.reference) == Some(stored)
    ensures states[i + 1].rows[l.reference].account == stored
    ensures var funded, now := states[i + 1].rows[l.reference].Funded(actions[i].now), actions[i].now;
            && !queried.LastsBeyond(now, 20)
            && (funded <==> stored.LastsBeyond(now, 20))
            && (Ordinary(queried) && Ordinary(stored) ==> (funded <==> queried.RunOut() <= now < stored.RunOut()))
            && (funded ==> ChangedSince(states[j].history, states[i].history, l.reference))
  {
    j := SnapshotIsLedger(offerId, actions, states, i, actions[i].run, l);
    NoUpdateIsLost(offerId, actions, states, i);
    CollectDeactivates(states[i], states[i + 1], offerId, actions[i].run, actions[i].now, l);
    queried, stored := l.snapshot.account, states[i].rows[l.reference].account;
    if !ChangedSince(states[j].history, states[i].history, l.reference) {
      LedgerUnlessChanged(offerId, states[j].history, states[i].history, l.reference);
    }
    RoundedFundedUntil(queried, actions[i].now, 20);
    RoundedFundedUntil(stored, actions[i].now, 20);
    if Ordinary(queried) && Ordinary(stored) {
      OrdinaryFunded(queried, actions[i].now);
      OrdinaryFunded(stored, actions[i].now);
    }
  }

  // ----- Deactivation is confirmed under interleaving, too -----

  /** Step k is a collector run at block m that marks r, which had no funds when the run loaded
      it. */
  predicate SetsMark(actions: seq<Action>, states: seq<Shared>, k: nat, r: Reference, m: int)
    requires k < |actions| && k < |states|
  {
    && actions[k].MarkNext?
    && var g := actions[k].run;
    && g in states[k].runs && states[k].runs[g].Looping? && states[k].runs[g].pass.Marking?
    && states[k].runs[g].number == m
    && states[k].runs[g].pass.todo != []
    && states[k].runs[g].pass.todo[0].reference == r
    && !states[k].runs[g].pass.todo[0].snapshot.Funded(actions[k].now)
  }

  /** Step k saves a creation of r. */
  predicate SavesCreation(actions: seq<Action>, states: seq<Shared>, k: nat, r: Reference)
    requires k < |actions| && k < |states|
  {
    && actions[k].Save? && states[k].handler.Loading?
    && states[k].handler.event.NewAgreement? && states[k].handler.event.reference == r
  }

  /** A mark was there before the step, which then saved no creation of r, or the step set it. */
  lemma MarkSetBefore(offerId: string, s: Shared, a: Action, t: Shared, r: Reference)
    requires Next(offerId, s, a, t) && r in t.rows && t.rows[r].expiredAtBlockNumber.Some?
    ensures !SavesCreation([a], [s], 0, r)
    ensures (r in s.rows && s.rows[r].expiredAtBlockNumber == t.rows[r].expiredAtBlockNumber)
         || SetsMark([a], [s], 0, r, t.rows[r].expiredAtBlockNumber.value)
  {
  }

  /** Under every interleaving a mark was set by a run at that block that found the agreement
      without funds, and no creation of it was saved since. */
  lemma {:induction false} MarkHasOrigin(
    offerId: string, actions: seq<Action>, states: seq<Shared>, i: nat, r: Reference) returns (k: nat)
    requires IsRun(offerId, actions, states) && i <= |actions|
    requires r in states[i].rows && states[i].rows[r].expiredAtBlockNumber.Some?
    ensures k < i && SetsMark(actions, states, k, r, states[i].rows[r].expiredAtBlockNumber.value)
    ensures forall h :: k <= h < i ==> !SavesCreation(actions, states, h, r)
    decreases i
  {
    assert i > 0;
    var s, a, t := states[i - 1], actions[i - 1], states[i];
    MarkSetBefore(offerId, s, a, t, r);
    if r in s.rows && s.rows[r].expiredAtBlockNumber == t.rows[r].expiredAtBlockNumber {
      k := MarkHasOrigin(offerId, actions, states, i - 1, r);
    } else {
      k := i - 1;
    }
  }

  /** Under every interleaving, what the collector works on in its second pass was found without
      funds and marked by a run at least `confirmations` blocks before, and not created again
      until the second pass queried it. */
  lemma CollectionIsConfirmed(
    offerId: string, actions: seq<Action>, states: seq<Shared>, i: nat, l: Loaded) returns (j: nat, k: nat, m: int)
    requires IsRun(offerId, actions, states) && i < |actions| && Collects(actions, states, i, l)
    ensures k < j < i && Queried(actions, states, j, actions[i].run, l)
    ensures SetsMark(actions, states, k, l.reference, m)
    ensures m + states[j].runs[actions[i].run].confirmations <= states[i].runs[actions[i].run].number
    ensures forall h :: k <= h < j ==> !SavesCreation(actions, states, h, l.reference)
  {
    j := SnapshotHasOrigin(offerId, actions, states, i, actions[i].run, l);
    k := MarkHasOrigin(offerId, actions, states, j, l.reference);
    m := l.snapshot.expiredAtBlockNumber.value;
  }

  // ----- What the interleaving does break -----

  /** One row, and one collector run that has come this far. */
  function OnlyRow(r: Reference, row: Agreement, history: seq<Event>, handler: Handler, run: CollectorRun): Shared {
    Shared(map[r := row], history, handler, map[0 := run])
  }

  lemma CreatesOnlyRow(offerId: string, r: Reference, data: string, a: Account)
    ensures var e, row := NewAgreement(r, offerId, data, a), Agreement(data, true, None, a);
            var loading, idle := Shared(map[], [], Loading(e), map[]), Shared(map[r := row], [e], Idle, map[]);
            Next(offerId, START, Take(e), loading) && Next(offerId, loading, Save, idle)
  {
  }

  /** A run finds the row, marks it and is cut short. */
  lemma MarksOnlyRow(
    offerId: string, r: Reference, row: Agreement, history: seq<Event>, number: int, confirmations: int, now: int)
    requires Unmarked(row) && !row.Funded(now)
    ensures var found, marked := [Loaded(r, row)], row.(expiredAtBlockNumber := Some(number));
            var idle, started := Shared(map[r := row], history, Idle, map[]), Started(number, confirmations);
            var marking := Looping(number, confirmations, Marking(found));
            var after := Looping(number, confirmations, Marking([]));
            && Next(offerId, idle, Spawn(0, number, confirmations), OnlyRow(r, row, history, Idle, started))
            && Next(offerId, OnlyRow(r, row, history, Idle, started), FindUnmarked(0, found),
                    OnlyRow(r, row, history, Idle, marking))
            && Next(offerId, OnlyRow(r, row, history, Idle, marking), MarkNext(0, now),
                    OnlyRow(r, marked, history, Idle, after))
            && Next(offerId, OnlyRow(r, marked, history, Idle, after), Abort(0),
                    Shared(map[r := marked], history, Idle, map[]))
  {
    var found := [Loaded(r, row)];
    assert found[1..] == [];
  }

  /** A later run has nothing to mark and finds the row ripe. */
  lemma FindsRipeRow(
    offerId: string, r: Reference, row: Agreement, history: seq<Event>, number: int, confirmations: int)
    requires Ripe(row, Moment(number, confirmations, 0, 0))
    ensures var idle, started := Shared(map[r := row], history, Idle, map[]), Started(number, confirmations);
            var marked := Looping(number, confirmations, Marking([]));
            var ripe := Looping(number, confirmations, Collecting([Loaded(r, row)]));
            && Next(offerId, idle, Spawn(0, number, confirmations), OnlyRow(r, row, history, Idle, started))
            && Next(offerId, OnlyRow(r, row, history, Idle, started), FindUnmarked(0, []),
                    OnlyRow(r, row, history, Idle, marked))
            && Next(offerId, OnlyRow(r, row, history, Idle, marked), FindRipe(0, [Loaded(r, row)]),
                    OnlyRow(r, row, history, Idle, ripe))
  {
  }

  lemma DepositsOnRow(
    offerId: string, r: Reference, row: Agreement, amount: nat, history: seq<Event>, run: CollectorRun)
    ensures var e := AgreementFundsDeposited(r, amount);
            var before := OnlyRow(r, row, history, Idle, run);
            var loading, saving := before.(handler := Loading(e)), before.(handler := Saving(e, row));
            && Next(offerId, before, Take(e), loading)
            && Next(offerId, loading, Load, saving)
            && Next(offerId, saving, Save,
                    OnlyRow(r, row.(account := AccountAfter(row.account, e)), history + [e], Idle, run))
  {
  }

  lemma CollectsOnlyRow(
    offerId: string, r: Reference, row: Agreement, snapshot: Agreement, history: seq<Event>,
    number: int, confirmations: int, now: int)
    requires !snapshot.Funded(now)
    ensures var collecting := Looping(number, confirmations, Collecting([Loaded(r, snapshot)]));
            var after := Looping(number, confirmations, Collecting([]));
            Next(offerId, OnlyRow(r, row, history, Idle, collecting), CollectNext(0, now),
                 OnlyRow(r, row.(isActive := false), history, Idle, after))
  {
    var ripe := [Loaded(r, snapshot)];
    assert ripe[1..] == [];
  }

  lemma FundedWithAPeriodLeft(a: Account, now: int, d: nat)
    requires a.billingPeriod > 0 && a.PeriodPrice() > 0 && a.RunOut() - now >= a.PeriodMs()
    ensures a.HasSufficientFunds(now, Places(d))
  {
    RoundedFundedUntil(a, now, d);
    MulMonotone(a.PeriodMs(), a.RunOut() - now, Pow10(d));
    MulMonotone(1, Pow10(d), a.PeriodMs());
  }

  /** Any agreement without funds can be restored by a deposit, if its period is not zero. */
  lemma DepositRestores(a: Account, r: Reference, now: int) returns (amount: nat)
    requires a.billingPeriod > 0 && !a.HasSufficientFunds(now, DECIMAL_PLACES)
    ensures AccountAfter(a, AgreementFundsDeposited(r, amount)).HasSufficientFunds(now, DECIMAL_PLACES)
  {
    var price, ms, e := a.PeriodPrice(), a.PeriodMs(), now - a.lastPayout;
    if price == 0 {
      var v := WholePeriods(a, now, DECIMAL_PLACES);
      SufficientForPeriods(a, now, DECIMAL_PLACES, v);
      assert false;
    } else {
      var k := e / ms + 2;
      DivBounds(e, ms);
      assert k * ms == (e / ms) * ms + 2 * ms;
      if k * price < a.availableFunds {
        DivLess(a.availableFunds, price, k);
        MulMonotone(k, a.availableFunds / price, ms);
        FundedWithAPeriodLeft(a, now, 20);
        assert false;
      } else {
        amount := k * price - a.availableFunds;
        var b := AccountAfter(a, AgreementFundsDeposited(r, amount));
        DivUnique(b.availableFunds, price, k);
        FundedWithAPeriodLeft(b, now, 20);
      }
    }
  }

  /** There are agreements without funds: such as any that charges and has a zero balance. */
  lemma PennilessIsUnfunded(a: Account, now: int)
    requires a.PeriodPrice() > 0 && a.availableFunds == 0 && now >= a.lastPayout
    ensures !a.HasSufficientFunds(now, DECIMAL_PLACES)
  {
    DivUnique(0, a.PeriodPrice(), 0);
    RoundedFundedUntil(a, now, 20);
    MulMonotone(a.RunOut() - now, 0, Pow10(20));
  }

  /** The collector decides on its snapshot: a deposit saved between its query and its save
      does not stop it from deactivating an agreement that has funds again. For every account
      without funds and any number of confirmations there is such a deposit and such a run: the
      row is marked at one block and found ripe `confirmations` blocks later. */
  lemma StaleSnapshotDeactivatesFunded(
    offerId: string, r: Reference, data: string, poor: Account, number: int, confirmations: nat, now: int)
    returns (amount: nat, actions: seq<Action>, states: seq<Shared>)
    requires poor.billingPeriod > 0 && !poor.HasSufficientFunds(now, DECIMAL_PLACES)
    ensures IsRun(offerId, actions, states)
    ensures Confirms(actions, confirmations)
    ensures var rich := AccountAfter(poor, AgreementFundsDeposited(r, amount));
            var row := Agreement(data, false, Some(number), rich);
            states[|actions|].rows == map[r := row] && row.Funded(now)
  {
    amount := DepositRestores(poor, r, now);
    var created, marked := NewAgreement(r, offerId, data, poor), Agreement(data, true, Some(number), poor);
    var a1, s1 := CreatedAndMarked(offerId, r, data, poor, number, confirmations, now);
    var a2, s2 := CollectedAfterDeposit(offerId, r, marked, amount, [created], number, confirmations, now);
    Joined(offerId, a1, s1, a2, s2);
    actions, states := a1 + a2, s1 + s2[1..];
  }

  lemma Joined(
    offerId: string, actions: seq<Action>, states: seq<Shared>, more: seq<Action>, later: seq<Shared>)
    requires Follows(offerId, actions, states) && Follows(offerId, more, later)
    requires states[|actions|] == later[0]
    ensures Follows(offerId, actions + more, states + later[1..])
    ensures (states + later[1..])[|actions + more|] == later[|more|]
  {
    var all := states + later[1..];
    forall i | 0 <= i < |actions + more|
      ensures Next(offerId, all[i], (actions + more)[i], all[i + 1])
    {
      if i >= |actions| {
        var k := i - |actions|;
        assert all[i] == later[k] && all[i + 1] == later[k + 1];
        assert Next(offerId, later[k], more[k], later[k + 1]);
      }
    }
  }

  predicate Confirms(actions: seq<Action>, confirmations: int) {
    forall i :: 0 <= i < |actions| && actions[i].Spawn? ==> actions[i].confirmations == confirmations
  }

  lemma CreatedAndMarked(
    offerId: string, r: Reference, data: string, poor: Account, number: int, confirmations: int, now: int)
    returns (actions: seq<Action>, states: seq<Shared>)
    requires !poor.HasSufficientFunds(now, DECIMAL_PLACES)
    ensures IsRun(offerId, actions, states) && Confirms(actions, confirmations)
    ensures states[|actions|] == Shared(map[r := Agreement(data, true, Some(number), poor)],
                                        [NewAgreement(r, offerId, data, poor)], Idle, map[])
  {
    var created, active := NewAgreement(r, offerId, data, poor), Agreement(data, true, None, poor);
    var marked, found, h := active.(expiredAtBlockNumber := Some(number)), [Loaded(r, active)], [created];
    actions := [
      Take(created), Save,
      Spawn(0, number, confirmations), FindUnmarked(0, found), MarkNext(0, now), Abort(0)];
    states := [
      START,
      Shared(map[], [], Loading(created), map[]),
      Shared(map[r := active], h, Idle, map[]),
      OnlyRow(r, active, h, Idle, Started(number, confirmations)),
      OnlyRow(r, active, h, Idle, Looping(number, confirmations, Marking(found))),
      OnlyRow(r, marked, h, Idle, Looping(number, confirmations, Marking([]))),
      Shared(map[r := marked], h, Idle, map[])];
    CreatesOnlyRow(offerId, r, data, poor);
    MarksOnlyRow(offerId, r, active, h, number, confirmations, now);
  }

  lemma CollectedAfterDeposit(
    offerId: string, r: Reference, marked: Agreement, amount: nat, history: seq<Event>,
    number: int, confirmations: nat, now: int)
    returns (actions: seq<Action>, states: seq<Shared>)
    requires marked.isActive && marked.expiredAtBlockNumber == Some(number) && !marked.Funded(now)
    ensures Follows(offerId, actions, states) && Confirms(actions, confirmations)
    ensures states[0] == Shared(map[r := marked], history, Idle, map[])
    ensures var rich := AccountAfter(marked.account, AgreementFundsDeposited(r, amount));
            states[|actions|].rows == map[r := marked.(isActive := false, account := rich)]
  {
    var deposit, later := AgreementFundsDeposited(r, amount), number + confirmations;
    var topped := marked.(account := AccountAfter(marked.account, deposit));
    var ripe := [Loaded(r, marked)];
    var collecting := Looping(later, confirmations, Collecting(ripe));
    actions := [
      Spawn(0, later, confirmations), FindUnmarked(0, []), FindRipe(0, ripe),
      Take(deposit), Load, Save, CollectNext(0, now)];
    states := [
      Shared(map[r := marked], history, Idle, map[]),
      OnlyRow(r, marked, history, Idle, Started(later, confirmations)),
      OnlyRow(r, marked, history, Idle, Looping(later, confirmations, Marking([]))),
      OnlyRow(r, marked, history, Idle, collecting),
      OnlyRow(r, marked, history, Loading(deposit), collecting),
      OnlyRow(r, marked, history, Saving(deposit, marked), collecting),
      OnlyRow(r, topped, history + [deposit], Idle, collecting),
      OnlyRow(r, topped.(isActive := false), history + [deposit], Idle, Looping(later, confirmations, Collecting([])))];
    FindsRipeRow(offerId, r, marked, history, later, confirmations);
    DepositsOnRow(offerId, r, marked, amount, history, collecting);
    CollectsOnlyRow(offerId, r, topped, marked, history + [deposit], later, confirmations, now);
  }
}

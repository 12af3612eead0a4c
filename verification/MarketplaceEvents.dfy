/** The marketplace strategy: the cache service reports each event with the agreement's
    current values, and the handlers write those absolute values to the row. */
module MarketplaceEvents {
  import opened Wrappers
  import opened BigNumbers
  import opened Billing
  import opened Outcomes
  import opened Pinning
  import opened Agreements
  import Chain = AgreementEvents
  import BlockchainStream

  /** The payload of a creation may or may not carry the two status columns. */
  datatype Event =
    | NewAgreement(reference: Reference, offerId: string, dataReference: string, account: Account,
                   isActive: Option<bool>, expiredAtBlockNumber: Option<Option<int>>)
    | AgreementStopped(reference: Reference, offerId: string)
    | AgreementFundsDeposited(reference: Reference, offerId: string, availableFunds: int)
    | AgreementFundsWithdrawn(reference: Reference, offerId: string, availableFunds: int)
    | AgreementFundsPayout(reference: Reference, offerId: string, availableFunds: int, lastPayout: int)
    | OfferEvent(offerId: string)

  function Or<T>(o: Option<T>, default: T): T {
    if o.Some? then o.value else default
  }

  /** Writes the columns the payload carries; the others keep their value, or get the default
      when the row is new. */
  function Upsert(rows: Table, e: Event): Table
    requires e.NewAgreement?
  {
    var active := e.reference in rows ==> rows[e.reference].isActive;
    var expired := if e.reference in rows then rows[e.reference].expiredAtBlockNumber else None;
    rows[e.reference :=
      Agreement(e.dataReference, Or(e.isActive, active), Or(e.expiredAtBlockNumber, expired), e.account)]
  }

  function RowAfter(row: Agreement, e: Event): Agreement
    requires !e.NewAgreement? && !e.OfferEvent?
  {
    match e
    case AgreementStopped(_, _) => row.(isActive := false)
    case AgreementFundsPayout(_, _, funds, date) =>
      row.(account := row.account.(availableFunds := funds, lastPayout := date))
    case AgreementFundsDeposited(_, _, funds) => row.(account := row.account.(availableFunds := funds))
    case AgreementFundsWithdrawn(_, _, funds) => row.(account := row.account.(availableFunds := funds))
  }

  function Write(rows: Table, e: Event): Table {
    if e.NewAgreement? then Upsert(rows, e)
    else if e.OfferEvent? then rows
    else if e.reference in rows then rows[e.reference := RowAfter(rows[e.reference], e)]
    else rows
  }

  /** The table after a stream that begins on `rows`, missing rows skipped. */
  function WriteAll(rows: Table, events: seq<Event>): Table {
    if events == [] then rows else Write(WriteAll(rows, events[..|events| - 1]), events[|events| - 1])
  }

  /** The filter keeps the payloads with our offer id. */
  function OwnEvents(offerId: string, events: seq<Event>): seq<Event> {
    if events == [] then [] else
      var own := OwnEvents(offerId, events[..|events| - 1]);
      var e := events[|events| - 1];
      if e.offerId == offerId then own + [e] else own
  }

  // ----- The handlers -----

  method OnNewAgreement(s: Chain.Service, e: Event, manager: bool, w: Chain.World) returns (thrown: bool)
    requires e.NewAgreement?
    modifies s, s.node
    ensures w.writeBroken ==> s.View() == old(s.View()) && thrown
    ensures !w.writeBroken ==> s.rows == Write(old(s.rows), e)
    ensures !w.writeBroken ==>
              && s.rows == old(s.rows)[e.reference := s.rows[e.reference]]
              && s.rows[e.reference].dataReference == e.dataReference && s.rows[e.reference].account == e.account
              && (e.isActive.Some? ==> s.rows[e.reference].isActive == e.isActive.value)
              && (e.expiredAtBlockNumber.Some? ==>
                    s.rows[e.reference].expiredAtBlockNumber == e.expiredAtBlockNumber.value)
              && (e.reference in old(s.rows) ==>
                    var row := old(s.rows)[e.reference];
                    && (e.isActive == None ==> s.rows[e.reference].isActive == row.isActive)
                    && (e.expiredAtBlockNumber == None ==>
                          s.rows[e.reference].expiredAtBlockNumber == row.expiredAtBlockNumber))
              && (e.reference !in old(s.rows) ==>
                    && (e.isActive == None ==> s.rows[e.reference].isActive)
                    && (e.expiredAtBlockNumber == None ==> s.rows[e.reference].expiredAtBlockNumber == None))
    ensures !w.writeBroken && !manager ==> s.View() == old(s.View()).(rows := s.rows) && !thrown
    ensures !w.writeBroken && manager && w.broadcastBroken ==> s.View() == old(s.View()).(rows := s.rows) && thrown
    ensures !w.writeBroken && manager && !w.broadcastBroken ==>
              var announced := Chain.Announce(old(s.View()).(rows := s.rows), IAgreementNew, e.reference);
              Chain.Handled(s.View(), thrown) == Chain.PinFor(announced, e.reference, s.retries, w)
  {
    if w.writeBroken {
      return true;
    }
    if e.reference in s.rows {
      var row := s.rows[e.reference].(dataReference := e.dataReference, account := e.account);
      if e.isActive.Some? {
        row := row.(isActive := e.isActive.value);
      }
      if e.expiredAtBlockNumber.Some? {
        row := row.(expiredAtBlockNumber := e.expiredAtBlockNumber.value);
      }
      s.rows := s.rows[e.reference := row];
    } else {
      s.rows := s.rows[e.reference :=
        Agreement(e.dataReference, Or(e.isActive, true), Or(e.expiredAtBlockNumber, None), e.account)];
    }
    if !manager {
      return false;
    }
    thrown := s.Broadcast(IAgreementNew, e.reference, w.broadcastBroken);
    if !thrown {
      thrown := s.PinAgreement(e.reference, w);
    }
  }

  method OnAgreementEvent(s: Chain.Service, e: Event, manager: bool, w: Chain.World) returns (thrown: bool)
    requires !e.NewAgreement? && !e.OfferEvent?
    modifies s, s.node
    ensures s.jobs == old(s.jobs)
    ensures var ok := e.reference in old(s.rows) && !w.writeBroken;
            && (!ok ==> thrown && s.View() == old(s.View()))
            && (ok ==> s.rows == Write(old(s.rows), e))
            && (ok ==>
                  var row := old(s.rows)[e.reference];
                  s.rows == old(s.rows)[e.reference :=
                    match e
                    case AgreementStopped(_, _) => row.(isActive := false)
                    case AgreementFundsPayout(_, _, funds, date) =>
                      row.(account := row.account.(availableFunds := funds, lastPayout := date))
                    case AgreementFundsDeposited(_, _, funds) =>
                      row.(account := row.account.(availableFunds := funds))
                    case AgreementFundsWithdrawn(_, _, funds) =>
                      row.(account := row.account.(availableFunds := funds))])
            && (ok && !(e.AgreementStopped? && manager) ==>
                  !thrown && s.node.pinned == old(s.node.pinned) && s.notices == old(s.notices))
            && (ok && e.AgreementStopped? && manager ==>
                  && s.node.pinned == UnpinPins(old(s.node.pinned), old(s.rows)[e.reference].dataReference, w.unpin)
                  && thrown == (!w.unpin.Worked? || w.broadcastBroken)
                  && s.notices == if thrown then old(s.notices)
                                  else old(s.notices) + [Notice(IAgreementStopped, e.reference)])
  {
    if e.reference !in s.rows || w.writeBroken {
      return true;
    }
    var agreement := s.rows[e.reference];
    match e {
      case AgreementStopped(_, _) =>
        agreement := agreement.(isActive := false);
      case AgreementFundsPayout(_, _, funds, date) =>
        agreement := agreement.(account := agreement.account.(lastPayout := date));
        agreement := agreement.(account := agreement.account.(availableFunds := funds));
      case AgreementFundsDeposited(_, _, funds) =>
        agreement := agreement.(account := agreement.account.(availableFunds := funds));
      case AgreementFundsWithdrawn(_, _, funds) =>
        agreement := agreement.(account := agreement.account.(availableFunds := funds));
    }
    s.rows := s.rows[e.reference := agreement];
    thrown := false;
    if e.AgreementStopped? && manager {
      var reply := s.Unpin(agreement.dataReference, w.unpin);
      if reply == UnpinFailed {
        return true;
      }
      thrown := s.Broadcast(IAgreementStopped, e.reference, w.broadcastBroken);
    }
  }

  /** One event through the filter, its handler and the wrapper that swallows errors. */
  method ProcessEvent(s: Chain.Service, offerId: string, e: Event, manager: bool, w: Chain.World)
    modifies s, s.node
    ensures e.offerId != offerId || e.OfferEvent? || w.writeBroken ==> s.View() == old(s.View())
    ensures e.offerId == offerId && !w.writeBroken ==> s.rows == Write(old(s.rows), e)
    ensures e.offerId == offerId && e.NewAgreement? && manager && !w.writeBroken && !w.broadcastBroken ==>
              s.notices == old(s.notices) + [Notice(IAgreementNew, e.reference)] && e.reference in s.jobs
    ensures e.offerId == offerId && e.NewAgreement? && manager && !w.writeBroken && !w.broadcastBroken && s.retries >= 1
            && Works(e.account.size, w.tries(0)) ==>
              s.jobs[e.reference] == Done && s.node.pinned == old(s.node.pinned) + {e.dataReference}
  {
    if e.offerId != offerId || e.OfferEvent? {
      return;
    }
    if e.NewAgreement? {
      ghost var before := s.View();
      var _ := OnNewAgreement(s, e, manager, w);
      if s.retries >= 1 {
        ReturnsExactly(before.pinned, e.dataReference, e.account.size, w.tries, s.retries);
        assert Works(e.account.size, w.tries(0)) ==> FirstToWork(e.account.size, w.tries, 0);
      }
    } else {
      var _ := OnAgreementEvent(s, e, manager, w);
    }
  }

  lemma OwnEventsNext(offerId: string, xs: seq<Event>, e: Event)
    ensures OwnEvents(offerId, xs + [e])
         == if e.offerId == offerId then OwnEvents(offerId, xs) + [e] else OwnEvents(offerId, xs)
  {
    assert (xs + [e])[..|xs|] == xs;
  }

  /** The filter goes event by event and keeps those that name our offer. */
  lemma {:induction false} OwnEventsSplit(offerId: string, xs: seq<Event>, ys: seq<Event>)
    ensures OwnEvents(offerId, xs + ys) == OwnEvents(offerId, xs) + OwnEvents(offerId, ys)
  {
    if ys == [] {
      assert xs + ys == xs;
    } else {
      var n := |ys| - 1;
      OwnEventsSplit(offerId, xs, ys[..n]);
      assert ys == ys[..n] + [ys[n]] && xs + ys == (xs + ys[..n]) + [ys[n]];
      OwnEventsNext(offerId, xs + ys[..n], ys[n]);
      OwnEventsNext(offerId, ys[..n], ys[n]);
    }
  }

  lemma OwnEventAlone(offerId: string, e: Event)
    ensures OwnEvents(offerId, [e]) == if e.offerId == offerId then [e] else []
  {
    assert [e][..0] == [];
  }

  // ----- Agreement with the blockchain strategy -----

  /** A payload reports a contract event truthfully: same kind, same agreement, and the
      contract's balance and payout date after the event. */
  predicate Reports(history: seq<Chain.Event>, b: Chain.Event, m: Event) {
    !b.OfferEvent? && !m.OfferEvent? && m.reference == b.reference &&
    var ledger := Chain.Ledger(history + [b], m.reference);
    match m
    case NewAgreement(_, _, data, account, _, _) =>
      b.NewAgreement? && data == b.dataReference && account == b.account
    case AgreementStopped(_, _) => b.AgreementStopped?
    case AgreementFundsDeposited(_, _, funds) =>
      b.AgreementFundsDeposited? && (ledger.Some? ==> funds == ledger.value.availableFunds)
    case AgreementFundsWithdrawn(_, _, funds) =>
      b.AgreementFundsWithdrawn? && (ledger.Some? ==> funds == ledger.value.availableFunds)
    case AgreementFundsPayout(_, _, funds, date) =>
      && b.AgreementFundsPayout?
      && (ledger.Some? ==> funds == ledger.value.availableFunds && date == ledger.value.lastPayout)
  }

  predicate ReportsAll(history: seq<Chain.Event>, bs: seq<Chain.Event>, ms: seq<Event>) {
    |bs| == |ms| && forall i :: 0 <= i < |bs| ==> Reports(history + bs[..i], bs[i], ms[i])
  }

  /** The payloads about agreement r. */
  function About(events: seq<Event>, r: Reference): seq<Event> {
    if events == [] then [] else
      var about, e := About(events[..|events| - 1], r), events[|events| - 1];
      if !e.OfferEvent? && e.reference == r then about + [e] else about
  }

  /** The payload stream reports each agreement's events truthfully and in order. The events of
      different agreements, and of the offer, may come in any order between them. */
  ghost predicate Truthful(history: seq<Chain.Event>, bs: seq<Chain.Event>, ms: seq<Event>) {
    forall r: Reference :: ReportsAll(history, Chain.About(bs, r), About(ms, r))
  }

  lemma LedgerNext(history: seq<Chain.Event>, bs: seq<Chain.Event>, e: Chain.Event, r: Reference)
    ensures Chain.Ledger(history + (bs + [e]), r) == Chain.LedgerStep(Chain.Ledger(history + bs, r), e, r)
  {
    var all := history + (bs + [e]);
    assert all[..|all| - 1] == history + bs;
  }

  lemma {:induction false} LedgerAbout(history: seq<Chain.Event>, bs: seq<Chain.Event>, r: Reference)
    ensures Chain.Ledger(history + bs, r) == Chain.Ledger(history + Chain.About(bs, r), r)
  {
    if bs != [] {
      var n := |bs| - 1;
      LedgerAbout(history, bs[..n], r);
      assert bs == bs[..n] + [bs[n]];
      LedgerNext(history, bs[..n], bs[n], r);
      LedgerNext(history, Chain.About(bs[..n], r), bs[n], r);
    }
  }

  predicate SameRow(rows: Table, other: Table, r: Reference) {
    (r in rows <==> r in other) && (r in rows ==> rows[r] == other[r])
  }

  lemma WriteSame(rows: Table, other: Table, e: Event, r: Reference)
    requires SameRow(rows, other, r)
    ensures SameRow(Write(rows, e), Write(other, e), r)
    ensures e.OfferEvent? || e.reference != r ==> SameRow(Write(rows, e), other, r)
  {
  }

  lemma WriteAllNext(rows: Table, ms: seq<Event>, e: Event)
    ensures WriteAll(rows, ms + [e]) == Write(WriteAll(rows, ms), e)
  {
    assert (ms + [e])[..|ms|] == ms;
  }

  lemma {:induction false} RowAbout(rows: Table, ms: seq<Event>, r: Reference)
    ensures SameRow(WriteAll(rows, ms), WriteAll(rows, About(ms, r)), r)
  {
    if ms != [] {
      var n := |ms| - 1;
      RowAbout(rows, ms[..n], r);
      WriteSame(WriteAll(rows, ms[..n]), WriteAll(rows, About(ms[..n], r)), ms[n], r);
      WriteAllNext(rows, About(ms[..n], r), ms[n]);
    }
  }

  predicate MirrorsAt(rows: Table, history: seq<Chain.Event>, r: Reference) {
    && (r in rows <==> Chain.Ledger(history, r).Some?)
    && (r in rows ==> rows[r].account == Chain.Ledger(history, r).value)
  }

  lemma MirrorsEverywhere(rows: Table, history: seq<Chain.Event>)
    requires forall r: Reference :: MirrorsAt(rows, history, r)
    ensures Chain.Mirrors(rows, history)
  {
    forall r: Reference
      ensures (r in rows <==> Chain.Ledger(history, r).Some?)
      ensures r in rows ==> rows[r].account == Chain.Ledger(history, r).value
    {
      assert MirrorsAt(rows, history, r);
    }
  }

  lemma WriteMirrorsAt(rows: Table, history: seq<Chain.Event>, b: Chain.Event, m: Event, r: Reference)
    requires MirrorsAt(rows, history, r) && Reports(history, b, m)
    ensures MirrorsAt(Write(rows, m), history + [b], r)
  {
  }

  lemma ReportsEarlier(history: seq<Chain.Event>, bs: seq<Chain.Event>, ms: seq<Event>)
    requires ms != [] && ReportsAll(history, bs, ms)
    ensures var n := |ms| - 1;
            ReportsAll(history, bs[..n], ms[..n]) && Reports(history + bs[..n], bs[n], ms[n])
  {
    var n := |ms| - 1;
    forall i | 0 <= i < n
      ensures Reports(history + bs[..n][..i], bs[..n][i], ms[..n][i])
    {
      assert bs[..n][..i] == bs[..i];
    }
  }

  lemma {:induction false} ReportsMirrorAt(
    rows: Table, history: seq<Chain.Event>, bs: seq<Chain.Event>, ms: seq<Event>, r: Reference)
    requires MirrorsAt(rows, history, r) && ReportsAll(history, bs, ms)
    ensures MirrorsAt(WriteAll(rows, ms), history + bs, r)
  {
    if ms == [] {
      assert history + bs == history;
    } else {
      var n := |ms| - 1;
      ReportsEarlier(history, bs, ms);
      ReportsMirrorAt(rows, history, bs[..n], ms[..n], r);
      WriteMirrorsAt(WriteAll(rows, ms[..n]), history + bs[..n], bs[n], ms[n], r);
      assert history + bs[..n] + [bs[n]] == history + bs;
    }
  }

  /** A marketplace table that mirrors the contract keeps mirroring it, from any start: from
      the empty table, or from the rows that precaching fetched in mid-history. */
  lemma TruthfulReportsMirror(rows: Table, history: seq<Chain.Event>, bs: seq<Chain.Event>, ms: seq<Event>)
    requires Chain.Mirrors(rows, history) && Truthful(history, bs, ms)
    ensures Chain.Mirrors(WriteAll(rows, ms), history + bs)
  {
    forall r: Reference
      ensures MirrorsAt(WriteAll(rows, ms), history + bs, r)
    {
      ReportsMirrorAt(rows, history, Chain.About(bs, r), About(ms, r), r);
      LedgerAbout(history, bs, r);
      RowAbout(rows, ms, r);
    }
    MirrorsEverywhere(WriteAll(rows, ms), history + bs);
  }

  /** The two strategies agree, behind their filters, on which agreements there are and on
      balance, payout date and terms of each, and so on hasSufficientFunds at any time. */
  lemma StrategiesAgree(offerId: string, bs: seq<Chain.Event>, ms: seq<Event>, now: int)
    requires Truthful([], BlockchainStream.OwnEvents(offerId, bs), OwnEvents(offerId, ms))
    ensures var blockchain := BlockchainStream.TableAfter(map[], offerId, bs);
            var marketplace := WriteAll(map[], OwnEvents(offerId, ms));
            && blockchain.Keys == marketplace.Keys
            && forall r :: r in blockchain ==>
                 && blockchain[r].account == marketplace[r].account
                 && (blockchain[r].Funded(now) <==> marketplace[r].Funded(now))
  {
    var own := BlockchainStream.OwnEvents(offerId, bs);
    TruthfulReportsMirror(map[], [], own, OwnEvents(offerId, ms));
    assert [] + own == own;
    BlockchainStream.ForeignEventsDoNotMatter(offerId, bs);
    BlockchainStream.HandlersFollowLedger(own);
  }

  // ----- The status column -----

  /** The payload writes the status: a stop, or a creation that carries it. */
  predicate WritesStatus(e: Event) {
    e.AgreementStopped? || (e.NewAgreement? && e.isActive.Some?)
  }

  predicate IsLastStatus(ms: seq<Event>, i: int) {
    0 <= i < |ms| && WritesStatus(ms[i]) && forall k :: i < k < |ms| ==> !WritesStatus(ms[k])
  }

  predicate StoppedBefore(ms: seq<Event>, i: int)
    requires i <= |ms|
  {
    exists k :: 0 <= k < i && ms[k].AgreementStopped?
  }

  /** If the last status of an agreement comes from a creation, it says that the agreement is
      inactive exactly when it was stopped before. */
  ghost predicate StatusKnowsStops(ms: seq<Event>) {
    forall i :: IsLastStatus(ms, i) && ms[i].NewAgreement? ==> (!ms[i].isActive.value <==> StoppedBefore(ms, i))
  }

  predicate OfOneAgreement(ms: seq<Event>, r: Reference) {
    && (forall i :: 0 <= i < |ms| ==> !ms[i].OfferEvent? && ms[i].reference == r)
    && (ms != [] ==> ms[0].NewAgreement?)
  }

  function StatusWrittenBy(e: Event): bool
    requires WritesStatus(e)
  {
    e.NewAgreement? && e.isActive.value
  }

  /** The status is the last one written; without any it is the default. */
  ghost predicate StatusIs(ms: seq<Event>, active: bool) {
    && (forall i :: IsLastStatus(ms, i) ==> active == StatusWrittenBy(ms[i]))
    && ((forall i :: 0 <= i < |ms| ==> !WritesStatus(ms[i])) ==> active)
  }

  lemma StatusNext(ms: seq<Event>, e: Event, active: bool)
    requires StatusIs(ms, active)
    ensures StatusIs(ms + [e], if WritesStatus(e) then StatusWrittenBy(e) else active)
  {
    var more := ms + [e];
    if WritesStatus(e) {
      assert more[|ms|] == e;
    } else {
      forall i | IsLastStatus(more, i)
        ensures IsLastStatus(ms, i)
      {
        assert forall k :: i < k < |ms| ==> more[k] == ms[k];
      }
      if forall i :: 0 <= i < |more| ==> !WritesStatus(more[i]) {
        assert forall i :: 0 <= i < |ms| ==> more[i] == ms[i];
      }
    }
  }

  lemma {:induction false} MarketplaceStatus(ms: seq<Event>, r: Reference)
    requires OfOneAgreement(ms, r)
    ensures var rows := WriteAll(map[], ms);
            && (r in rows <==> ms != [])
            && StatusIs(ms, r in rows ==> rows[r].isActive)
  {
    if ms != [] {
      var n := |ms| - 1;
      MarketplaceStatus(ms[..n], r);
      var earlier := WriteAll(map[], ms[..n]);
      StatusWritten(earlier, ms[n], r);
      StatusNext(ms[..n], ms[n], r in earlier ==> earlier[r].isActive);
      assert ms[..n] + [ms[n]] == ms;
    }
  }

  lemma StatusWritten(rows: Table, e: Event, r: Reference)
    requires !e.OfferEvent? && e.reference == r && (r in rows || e.NewAgreement?)
    ensures var after := Write(rows, e);
            && r in after
            && after[r].isActive == if WritesStatus(e) then StatusWrittenBy(e) else r in rows ==> rows[r].isActive
  {
  }

  /** The blockchain strategy's status: a stop is final. */
  lemma {:induction false} BlockchainStatus(bs: seq<Chain.Event>, r: Reference)
    requires bs != [] && bs[0].NewAgreement?
    requires forall i :: 0 <= i < |bs| ==> !bs[i].OfferEvent? && bs[i].reference == r
    ensures var rows := BlockchainStream.HandlersOnly(bs);
            r in rows && (rows[r].isActive <==> forall i :: 0 <= i < |bs| ==> !bs[i].AgreementStopped?)
  {
    var n := |bs| - 1;
    if n > 0 {
      BlockchainStatus(bs[..n], r);
    } else {
      assert BlockchainStream.HandlersOnly(bs[..n]) == map[];
    }
  }

  lemma HandledSame(rows: Table, other: Table, e: Chain.Event, r: Reference)
    requires SameRow(rows, other, r)
    ensures SameRow(Chain.Write(rows, e), Chain.Write(other, e), r)
    ensures e.OfferEvent? || e.reference != r ==> SameRow(Chain.Write(rows, e), other, r)
  {
  }

  lemma HandledNext(bs: seq<Chain.Event>, e: Chain.Event)
    ensures BlockchainStream.HandlersOnly(bs + [e]) == Chain.Write(BlockchainStream.HandlersOnly(bs), e)
  {
    assert (bs + [e])[..|bs|] == bs;
  }

  lemma {:induction false} HandledAbout(bs: seq<Chain.Event>, r: Reference)
    ensures SameRow(BlockchainStream.HandlersOnly(bs), BlockchainStream.HandlersOnly(Chain.About(bs, r)), r)
  {
    if bs != [] {
      var n := |bs| - 1;
      HandledAbout(bs[..n], r);
      var about := Chain.About(bs[..n], r);
      HandledSame(BlockchainStream.HandlersOnly(bs[..n]), BlockchainStream.HandlersOnly(about), bs[n], r);
      HandledNext(about, bs[n]);
    }
  }

  lemma {:induction false} AboutOnly(bs: seq<Chain.Event>, r: Reference)
    ensures forall i :: 0 <= i < |Chain.About(bs, r)| ==>
              !Chain.About(bs, r)[i].OfferEvent? && Chain.About(bs, r)[i].reference == r
  {
    if bs != [] {
      AboutOnly(bs[..|bs| - 1], r);
    }
  }

  /** Our first event about an agreement is its creation. */
  lemma {:induction false} FirstIsCreation(offerId: string, bs: seq<Chain.Event>, r: Reference)
    ensures var about := Chain.About(BlockchainStream.OwnEvents(offerId, bs), r);
            about != [] ==> about[0].NewAgreement?
  {
    if bs != [] {
      var earlier, e := bs[..|bs| - 1], bs[|bs| - 1];
      FirstIsCreation(offerId, earlier, r);
      var own := BlockchainStream.OwnEvents(offerId, earlier);
      if BlockchainStream.Own(offerId, earlier, e) {
        assert (own + [e])[..|own|] == own;
        if e.AboutAgreement() && e.reference == r {
          BlockchainStream.KeysAreOwnReferences(offerId, earlier);
          BlockchainStream.ForeignEventsDoNotMatter(offerId, earlier);
          HandledAbout(own, r);
        }
      }
    }
  }

  lemma ReportedStops(history: seq<Chain.Event>, bs: seq<Chain.Event>, ms: seq<Event>)
    requires ReportsAll(history, bs, ms)
    ensures forall i :: 0 <= i < |bs| ==>
              && (bs[i].AgreementStopped? <==> ms[i].AgreementStopped?)
              && (bs[i].NewAgreement? <==> ms[i].NewAgreement?)
              && !bs[i].OfferEvent? && !ms[i].OfferEvent? && bs[i].reference == ms[i].reference
  {
  }

  /** The last status of payloads says active exactly when it should, by the stops in them. */
  lemma LastStatusAndStops(ms: seq<Event>, active: bool)
    requires StatusIs(ms, active)
    ensures active == !StoppedBefore(ms, |ms|) <==> StatusKnowsStops(ms)
  {
    LastStatusOrNone(ms, |ms|);
    if i :| IsLastStatus(ms, i) {
      assert forall k :: IsLastStatus(ms, k) ==> k == i;
      assert StoppedBefore(ms, |ms|) <==> StoppedBefore(ms, i) || ms[i].AgreementStopped?;
    }
  }

  lemma AgreeByLastStatus(bs: seq<Chain.Event>, ms: seq<Event>, r: Reference)
    requires ReportsAll([], bs, ms) && bs != [] && OfOneAgreement(ms, r)
    ensures var blockchain, marketplace := BlockchainStream.HandlersOnly(bs), WriteAll(map[], ms);
            && r in blockchain && r in marketplace
            && (blockchain[r].isActive == marketplace[r].isActive <==> StatusKnowsStops(ms))
  {
    ReportedStops([], bs, ms);
    assert bs[0].NewAgreement?;
    BlockchainStatus(bs, r);
    MarketplaceStatus(ms, r);
    LastStatusAndStops(ms, WriteAll(map[], ms)[r].isActive);
  }

  lemma {:induction false} LastStatusOrNone(ms: seq<Event>, n: nat)
    requires n <= |ms| && forall k :: n <= k < |ms| ==> !WritesStatus(ms[k])
    ensures (exists i :: IsLastStatus(ms, i)) || (forall k :: 0 <= k < |ms| ==> !WritesStatus(ms[k]))
  {
    if n > 0 {
      if WritesStatus(ms[n - 1]) {
        assert IsLastStatus(ms, n - 1);
      } else {
        LastStatusOrNone(ms, n - 1);
      }
    }
  }

  /** The strategies agree on isActive of agreement r if and only if the last status in its
      payloads, when a creation carries it, knows of the stops; in particular whenever the
      creations leave isActive out. */
  lemma StatusAgreesExactly(offerId: string, bs: seq<Chain.Event>, ms: seq<Event>, r: Reference)
    requires Truthful([], BlockchainStream.OwnEvents(offerId, bs), OwnEvents(offerId, ms))
    requires r in BlockchainStream.TableAfter(map[], offerId, bs)
    ensures var blockchain := BlockchainStream.TableAfter(map[], offerId, bs);
            var marketplace := WriteAll(map[], OwnEvents(offerId, ms));
            var payloads := About(OwnEvents(offerId, ms), r);
            && r in marketplace
            && (blockchain[r].isActive == marketplace[r].isActive <==> StatusKnowsStops(payloads))
            && ((forall i :: 0 <= i < |payloads| && payloads[i].NewAgreement? ==> payloads[i].isActive == None)
                  ==> blockchain[r].isActive == marketplace[r].isActive)
  {
    var own, payloads := BlockchainStream.OwnEvents(offerId, bs), About(OwnEvents(offerId, ms), r);
    var events := Chain.About(own, r);
    assert ReportsAll([], events, payloads);
    BlockchainStream.ForeignEventsDoNotMatter(offerId, bs);
    HandledAbout(own, r);
    AboutOnly(own, r);
    RowAbout(map[], OwnEvents(offerId, ms), r);
    FirstIsCreation(offerId, bs, r);
    ReportedStops([], events, payloads);
    AgreeByLastStatus(events, payloads, r);
  }

  /** They need not agree: an agreement stopped and created again stays inactive
      for the blockchain strategy, and is active again for a payload that says so. */
  lemma RecreatedAgreementsDiffer(offerId: string, r: Reference, data: string, a: Account)
    ensures var created := Chain.NewAgreement(r, offerId, data, a);
            var bs := [created, Chain.AgreementStopped(r), created];
            var again := NewAgreement(r, offerId, data, a, Some(true), None);
            var ms := [again, AgreementStopped(r, offerId), again];
            && ReportsAll([], bs, ms)
            && BlockchainStream.HandlersOnly(bs) == map[r := Agreement(data, false, None, a)]
            && WriteAll(map[], ms) == map[r := Agreement(data, true, None, a)]
  {
    var b0, b1 := Chain.NewAgreement(r, offerId, data, a), Chain.AgreementStopped(r);
    var bs := [b0, b1, b0];
    var again := NewAgreement(r, offerId, data, a, Some(true), None);
    var ms := [again, AgreementStopped(r, offerId), again];
    assert bs[..2] == [b0, b1] && bs[..2][..1] == [b0] && bs[..2][..1][..0] == [];
    assert ms[..2] == [ms[0], ms[1]] && ms[..2][..1] == [ms[0]] && ms[..2][..1][..0] == [];
    assert BlockchainStream.HandlersOnly(bs[..2][..1]) == map[r := Agreement(data, true, None, a)];
    assert BlockchainStream.HandlersOnly(bs[..2]) == map[r := Agreement(data, false, None, a)];
    assert WriteAll(map[], ms[..2][..1]) == map[r := Agreement(data, true, None, a)];
    assert WriteAll(map[], ms[..2]) == map[r := Agreement(data, false, None, a)];
  }

  // ----- Precaching -----

  predicate AllCreations(fetched: seq<Event>) {
    forall i :: 0 <= i < |fetched| ==> fetched[i].NewAgreement?
  }

  /** A fetched agreement becomes a full instance first, so a missing isActive is stored as
      the default; a missing mark stays unwritten. */
  function Instance(e: Event): Event
    requires e.NewAgreement?
  {
    e.(isActive := Some(Or(e.isActive, true)))
  }

  function Instances(fetched: seq<Event>): (instances: seq<Event>)
    requires AllCreations(fetched)
    ensures |instances| == |fetched|
    ensures forall i :: 0 <= i < |fetched| ==> instances[i] == Instance(fetched[i])
  {
    if fetched == [] then [] else Instances(fetched[..|fetched| - 1]) + [Instance(fetched[|fetched| - 1])]
  }

  /** Fetched agreements that give the contract's current accounts, one for each agreement. */
  ghost predicate Snapshot(fetched: seq<Event>, history: seq<Chain.Event>) {
    && AllCreations(fetched)
    && (forall i :: 0 <= i < |fetched| ==> Chain.Ledger(history, fetched[i].reference) == Some(fetched[i].account))
    && (forall r: Reference :: Chain.Ledger(history, r).Some? ==>
          exists i :: 0 <= i < |fetched| && fetched[i].reference == r)
  }

  /** The stored rows, however old, are the contract's agreements or some of them. */
  ghost predicate KnownRows(rows: Table, history: seq<Chain.Event>) {
    forall r :: r in rows ==> Chain.Ledger(history, r).Some?
  }

  lemma {:induction false} FetchedRows(rows: Table, fetched: seq<Event>, history: seq<Chain.Event>, r: Reference)
    requires forall i :: 0 <= i < |fetched| ==>
               fetched[i].NewAgreement? && Chain.Ledger(history, fetched[i].reference) == Some(fetched[i].account)
    ensures r in WriteAll(rows, fetched)
       <==> r in rows || exists i :: 0 <= i < |fetched| && fetched[i].reference == r
    ensures (exists i :: 0 <= i < |fetched| && fetched[i].reference == r)
        ==> Chain.Ledger(history, r) == Some(WriteAll(rows, fetched)[r].account)
  {
    if fetched != [] {
      var n := |fetched| - 1;
      FetchedRows(rows, fetched[..n], history, r);
      if i :| 0 <= i < n && fetched[i].reference == r {
        assert fetched[..n][i].reference == r;
      }
    }
  }

  /** A start over any stored table of known agreements, of any age, ends with the contract's
      current accounts; and a node that then follows the events with those of one that followed
      all of them. */
  lemma PrecacheCatchesUp(
    rows: Table, fetched: seq<Event>, history: seq<Chain.Event>, bs: seq<Chain.Event>, ms: seq<Event>)
    requires KnownRows(rows, history) && Snapshot(fetched, history) && Truthful(history, bs, ms)
    ensures var start := WriteAll(rows, Instances(fetched));
            Chain.Mirrors(start, history) && Chain.Mirrors(WriteAll(start, ms), history + bs)
  {
    var start := WriteAll(rows, Instances(fetched));
    forall r: Reference
      ensures MirrorsAt(start, history, r)
    {
      FetchedRows(rows, Instances(fetched), history, r);
      if i :| 0 <= i < |fetched| && fetched[i].reference == r {
        assert Instances(fetched)[i].reference == r;
      }
    }
    MirrorsEverywhere(start, history);
    TruthfulReportsMirror(start, history, bs, ms);
  }

  /** What a start stores of a fetched agreement, if none after it has its reference: the fetched
      columns, active unless it says otherwise, and with the stored mark if it carries none. */
  lemma StoredInColumns(rows: Table, fetched: seq<Event>, i: nat)
    requires AllCreations(fetched) && i < |fetched|
    requires forall k :: i < k < |fetched| ==> fetched[k].reference != fetched[i].reference
    ensures var r, stored := fetched[i].reference, WriteAll(rows, Instances(fetched));
            var before := WriteAll(rows, Instances(fetched)[..i]);
            && r in stored
            && stored[r].dataReference == fetched[i].dataReference && stored[r].account == fetched[i].account
            && (stored[r].isActive <==> fetched[i].isActive != Some(false))
            && (fetched[i].expiredAtBlockNumber.Some? ==>
                  stored[r].expiredAtBlockNumber == fetched[i].expiredAtBlockNumber.value)
            && (fetched[i].expiredAtBlockNumber == None ==>
                  stored[r].expiredAtBlockNumber == if r in before then before[r].expiredAtBlockNumber else None)
  {
    var instances := Instances(fetched);
    StoreInColumns(WriteAll(rows, instances[..i]), fetched[i]);
    StoredNext(rows, instances, i);
    StoredKept(rows, instances, i, fetched[i].reference);
  }

  /** What none of the later ones is about stays as it was stored. */
  lemma {:induction false} StoredKept(rows: Table, es: seq<Event>, i: nat, r: Reference)
    requires i < |es| && forall k :: i < k < |es| ==> es[k].NewAgreement? && es[k].reference != r
    ensures SameRow(WriteAll(rows, es), WriteAll(rows, es[..i + 1]), r)
  {
    var n := |es| - 1;
    if i < n {
      assert es[..n][..i + 1] == es[..i + 1];
      StoredKept(rows, es[..n], i, r);
    } else {
      assert es[..i + 1] == es;
    }
  }

  lemma StoredNext(rows: Table, es: seq<Event>, i: nat)
    requires i < |es|
    ensures WriteAll(rows, es[..i + 1]) == Write(WriteAll(rows, es[..i]), es[i])
  {
    assert es[..i + 1][..i] == es[..i];
  }

  /** One fetched agreement stored, in its columns; other rows stay. */
  lemma StoreInColumns(rows: Table, e: Event)
    requires e.NewAgreement?
    ensures var stored, r := Write(rows, Instance(e)), e.reference;
            && r in stored && stored == rows[r := stored[r]]
            && stored[r].dataReference == e.dataReference && stored[r].account == e.account
            && (stored[r].isActive <==> e.isActive != Some(false))
            && (e.expiredAtBlockNumber.Some? ==> stored[r].expiredAtBlockNumber == e.expiredAtBlockNumber.value)
            && (e.expiredAtBlockNumber == None ==>
                  stored[r].expiredAtBlockNumber == if r in rows then rows[r].expiredAtBlockNumber else None)
  {
  }

  /** The fetched agreement is to be pinned: it does not say that it is inactive, and its funds
      suffice. */
  predicate WorthPinning(e: Event, now: int)
    requires e.NewAgreement?
  {
    e.isActive != Some(false) && e.account.HasSufficientFunds(now, DECIMAL_PLACES)
  }

  /** The first n fetched agreements are pinned, by jobs that worked, where they are worth it. */
  ghost predicate WorthyArePinned(
    fetched: seq<Event>, n: nat, pinned: set<string>, jobs: map<Reference, Outcome>, now: int)
    requires AllCreations(fetched) && n <= |fetched|
  {
    forall i :: 0 <= i < n && WorthPinning(fetched[i], now) ==>
      fetched[i].dataReference in pinned && fetched[i].reference in jobs && jobs[fetched[i].reference] == Done
  }

  /** No job was run, and no pin added, but for those of the first n that are worth it. */
  ghost predicate OnlyWorthyTried(before: State, t: State, fetched: seq<Event>, n: nat, now: int)
    requires AllCreations(fetched) && n <= |fetched|
  {
    && (forall r :: r in t.jobs ==>
          || (r in before.jobs && t.jobs[r] == before.jobs[r])
          || exists i :: 0 <= i < n && WorthPinning(fetched[i], now) && fetched[i].reference == r)
    && (forall h :: h in t.pinned ==>
          || h in before.pinned
          || exists i :: 0 <= i < n && WorthPinning(fetched[i], now) && fetched[i].dataReference == h)
  }

  /** Where precaching stands: the first n fetched agreements are stored, and pinned where they
      are worth it. */
  ghost predicate FetchedSoFar(before: State, t: State, fetched: seq<Event>, n: nat, now: int, retries: int)
    requires AllCreations(fetched) && n <= |fetched|
  {
    && t.rows == WriteAll(before.rows, Instances(fetched)[..n])
    && t.notices == before.notices
    && (retries >= 1 ==> WorthyArePinned(fetched, n, t.pinned, t.jobs, now))
    && OnlyWorthyTried(before, t, fetched, n, now)
  }

  /** What storing and pinning one fetched agreement does. */
  ghost predicate StoresOne(s: State, t: State, e: Event, now: int, retries: int, thrown: bool)
    requires e.NewAgreement?
  {
    && t.rows == Write(s.rows, Instance(e)) && t.notices == s.notices
    && (!WorthPinning(e, now) ==> !thrown && t.pinned == s.pinned && t.jobs == s.jobs)
    && (WorthPinning(e, now) ==>
          && t.pinned - {e.dataReference} == s.pinned - {e.dataReference}
          && e.reference in t.jobs
          && t.jobs == s.jobs[e.reference := t.jobs[e.reference]]
          && (thrown <==> t.jobs[e.reference].Failed?)
          && (!thrown && retries >= 1 ==> t.pinned == s.pinned + {e.dataReference}))
  }

  lemma PinFetched(s: State, r: Reference, retries: int, w: Chain.World)
    requires r in s.rows
    ensures var pinned, hash := Chain.PinFor(s, r, retries, w), s.rows[r].dataReference;
            && pinned.state.pinned - {hash} == s.pinned - {hash}
            && (!pinned.thrown && retries >= 1 ==> pinned.state.pinned == s.pinned + {hash})
  {
    var row := s.rows[r];
    if retries >= 1 {
      var k := PinGuarantee(s.pinned, row.dataReference, row.account.size, w.tries, retries);
      if !Chain.PinFor(s, r, retries, w).thrown {
        NormalReturnPins(s.pinned, row.dataReference, row.account.size, w.tries, retries);
      }
    }
  }

  lemma WorthyNext(fetched: seq<Event>, n: nat, s: State, t: State, now: int, retries: int)
    requires AllCreations(fetched) && n < |fetched| && retries >= 1
    requires WorthyArePinned(fetched, n, s.pinned, s.jobs, now) && StoresOne(s, t, fetched[n], now, retries, false)
    ensures WorthyArePinned(fetched, n + 1, t.pinned, t.jobs, now)
  {
  }

  lemma OnlyWorthyNext(
    before: State, s: State, t: State, fetched: seq<Event>, n: nat, now: int, retries: int, thrown: bool)
    requires AllCreations(fetched) && n < |fetched|
    requires OnlyWorthyTried(before, s, fetched, n, now) && StoresOne(s, t, fetched[n], now, retries, thrown)
    ensures OnlyWorthyTried(before, t, fetched, n + 1, now)
  {
    forall h | h in t.pinned
      ensures h in s.pinned || (WorthPinning(fetched[n], now) && fetched[n].dataReference == h)
    {
      if h != fetched[n].dataReference {
        assert h in t.pinned - {fetched[n].dataReference};
      }
    }
  }

  /** The same with the condition spelt out, over all of the fetched agreements. */
  lemma OnlyFetchedTried(before: State, t: State, fetched: seq<Event>, n: nat, now: int)
    requires AllCreations(fetched) && n <= |fetched| && OnlyWorthyTried(before, t, fetched, n, now)
    ensures forall r :: r in t.jobs ==>
              || (r in before.jobs && t.jobs[r] == before.jobs[r])
              || exists i :: 0 <= i < |fetched| && fetched[i].reference == r && fetched[i].isActive != Some(false)
                             && fetched[i].account.HasSufficientFunds(now, DECIMAL_PLACES)
    ensures forall h :: h in t.pinned ==>
              || h in before.pinned
              || exists i :: 0 <= i < |fetched| && fetched[i].dataReference == h && fetched[i].isActive != Some(false)
                             && fetched[i].account.HasSufficientFunds(now, DECIMAL_PLACES)
  {
  }

  lemma StoresNext(before: Table, s: State, t: State, fetched: seq<Event>, n: nat)
    requires AllCreations(fetched) && n < |fetched|
    requires s.rows == WriteAll(before, Instances(fetched)[..n]) && t.rows == Write(s.rows, Instance(fetched[n]))
    ensures t.rows == WriteAll(before, Instances(fetched)[..n + 1])
  {
    assert Instances(fetched)[..n + 1][..n] == Instances(fetched)[..n];
  }

  lemma FetchedOneMore(
    before: State, s: State, t: State, fetched: seq<Event>, n: nat, now: int, retries: int, thrown: bool)
    requires AllCreations(fetched) && n < |fetched| && FetchedSoFar(before, s, fetched, n, now, retries)
    requires StoresOne(s, t, fetched[n], now, retries, thrown)
    ensures t.rows == WriteAll(before.rows, Instances(fetched)[..n + 1]) && t.notices == before.notices
    ensures OnlyWorthyTried(before, t, fetched, n + 1, now)
    ensures !thrown ==> FetchedSoFar(before, t, fetched, n + 1, now, retries)
  {
    StoresNext(before.rows, s, t, fetched, n);
    OnlyWorthyNext(before, s, t, fetched, n, now, retries, thrown);
    if !thrown && retries >= 1 {
      WorthyNext(fetched, n, s, t, now, retries);
    }
  }

  method StoreFetched(s: Chain.Service, e: Event, now: int, w: Chain.World) returns (thrown: bool)
    requires e.NewAgreement?
    modifies s, s.node
    ensures w.writeBroken ==> thrown && s.View() == old(s.View())
    ensures !w.writeBroken ==> StoresOne(old(s.View()), s.View(), e, now, s.retries, thrown)
  {
    if w.writeBroken {
      return true;
    }
    var agreement := Instance(e);
    s.rows := Upsert(s.rows, agreement);
    thrown := false;
    if agreement.isActive.value && agreement.account.HasSufficientFunds(now, DECIMAL_PLACES) {
      PinFetched(s.View(), e.reference, s.retries, w);
      thrown := s.PinAgreement(e.reference, w);
    }
  }

  /** Every start: upsert each fetched agreement and pin it when it is active and has funds;
      the first failing write or job aborts. */
  method Precache(s: Chain.Service, fetched: seq<Event>, now: int, worlds: nat -> Chain.World)
    returns (thrown: bool, ghost stored: nat)
    requires AllCreations(fetched)
    modifies s, s.node
    ensures stored <= |fetched| && s.rows == WriteAll(old(s.rows), Instances(fetched)[..stored])
    ensures !thrown ==> stored == |fetched| && s.rows == WriteAll(old(s.rows), Instances(fetched))
    ensures !thrown && s.retries >= 1 ==>
              forall i :: 0 <= i < |fetched| && fetched[i].isActive != Some(false)
                          && fetched[i].account.HasSufficientFunds(now, DECIMAL_PLACES) ==>
                && fetched[i].dataReference in s.node.pinned
                && fetched[i].reference in s.jobs && s.jobs[fetched[i].reference] == Done
    ensures forall r :: r in s.jobs ==>
              || (r in old(s.jobs) && s.jobs[r] == old(s.jobs)[r])
              || exists i :: 0 <= i < |fetched| && fetched[i].reference == r && fetched[i].isActive != Some(false)
                             && fetched[i].account.HasSufficientFunds(now, DECIMAL_PLACES)
    ensures forall h :: h in s.node.pinned ==>
              || h in old(s.node.pinned)
              || exists i :: 0 <= i < |fetched| && fetched[i].dataReference == h && fetched[i].isActive != Some(false)
                             && fetched[i].account.HasSufficientFunds(now, DECIMAL_PLACES)
    ensures thrown ==>
              || (stored < |fetched| && worlds(stored).writeBroken)
              || (stored > 0 && FailedFor(s.View(), fetched[stored - 1].reference))
    ensures s.notices == old(s.notices)
  {
    ghost var before := s.View();
    var i := 0;
    while i < |fetched|
      invariant 0 <= i <= |fetched|
      invariant FetchedSoFar(before, s.View(), fetched, i, now, s.retries)
    {
      ghost var earlier := s.View();
      thrown := StoreFetched(s, fetched[i], now, worlds(i));
      if worlds(i).writeBroken {
        OnlyFetchedTried(before, s.View(), fetched, i, now);
        return thrown, i;
      }
      FetchedOneMore(before, earlier, s.View(), fetched, i, now, s.retries, thrown);
      i := i + 1;
      if thrown {
        OnlyFetchedTried(before, s.View(), fetched, i, now);
        return thrown, i;
      }
    }
    assert Instances(fetched)[..i] == Instances(fetched);
    OnlyFetchedTried(before, s.View(), fetched, i, now);
    thrown, stored := false, i;
  }

  predicate FailedFor(s: State, r: Reference) {
    r in s.jobs && s.jobs[r].Failed?
  }
}

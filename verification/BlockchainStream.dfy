/** The blockchain strategy's event stream: the filter in front of the handlers, live
    processing, and the precache replay that runs the handlers without a manager. */
module BlockchainStream {
  import opened Wrappers
  import opened Billing
  import opened BigNumbers
  import opened Outcomes
  import opened PinJobs
  import opened Jobs
  import opened Pinning
  import opened Agreements
  import opened AgreementEvents

  /** An event passes when it names our offer, or is about an agreement that has a row. */
  predicate Admitted(offerId: string, rows: Table, e: Event) {
    if e.AboutAgreement() then e.reference in rows else e.provider == offerId
  }

  /** One event through filter, handler and the wrapper that swallows errors. */
  function Process(s: State, offerId: string, e: Event, manager: bool, retries: int, w: World): State {
    if Admitted(offerId, s.rows, e) then Handle(s, e, manager, retries, w).state else s
  }

  /** The table such processing leaves from a stored one, side effects left out. */
  function TableAfter(stored: Table, offerId: string, events: seq<Event>): Table {
    if events == [] then stored else
      var rows := TableAfter(stored, offerId, events[..|events| - 1]);
      var e := events[|events| - 1];
      if Admitted(offerId, rows, e) then Write(rows, e) else rows
  }

  /** The handlers alone, with no filter in front. */
  function HandlersOnly(events: seq<Event>): Table {
    if events == [] then map[] else Write(HandlersOnly(events[..|events| - 1]), events[|events| - 1])
  }

  // ----- Own events -----

  predicate OwnCreation(offerId: string, e: Event, r: Reference) {
    e.NewAgreement? && e.provider == offerId && e.reference == r
  }

  predicate OwnReference(offerId: string, events: seq<Event>, r: Reference) {
    exists i :: 0 <= i < |events| && OwnCreation(offerId, events[i], r)
  }

  /** Ours is what names our offer, and what is about an agreement created for us earlier. */
  predicate Own(offerId: string, earlier: seq<Event>, e: Event) {
    if e.AboutAgreement() then OwnReference(offerId, earlier, e.reference) else e.provider == offerId
  }

  function OwnEvents(offerId: string, events: seq<Event>): seq<Event> {
    if events == [] then [] else
      var earlier, e := events[..|events| - 1], events[|events| - 1];
      if Own(offerId, earlier, e) then OwnEvents(offerId, earlier) + [e] else OwnEvents(offerId, earlier)
  }

  lemma OwnReferenceExtends(offerId: string, earlier: seq<Event>, e: Event, r: Reference)
    ensures OwnReference(offerId, earlier + [e], r)
       <==> OwnReference(offerId, earlier, r) || OwnCreation(offerId, e, r)
  {
    var events := earlier + [e];
    if OwnReference(offerId, earlier, r) {
      var i :| 0 <= i < |earlier| && OwnCreation(offerId, earlier[i], r);
      assert OwnCreation(offerId, events[i], r);
    }
    if OwnCreation(offerId, e, r) {
      assert OwnCreation(offerId, events[|earlier|], r);
    }
  }

  /** The table's keys are exactly the references of our NewAgreements so far, so the filter
      admits exactly our own events. */
  lemma {:induction false} KeysAreOwnReferences(offerId: string, events: seq<Event>)
    ensures forall r :: r in TableAfter(map[], offerId, events) <==> OwnReference(offerId, events, r)
    ensures forall e: Event :: Admitted(offerId, TableAfter(map[], offerId, events), e) <==> Own(offerId, events, e)
  {
    if events != [] {
      var earlier, e := events[..|events| - 1], events[|events| - 1];
      assert events == earlier + [e];
      KeysAreOwnReferences(offerId, earlier);
      forall r
        ensures r in TableAfter(map[], offerId, events) <==> OwnReference(offerId, events, r)
      {
        OwnReferenceExtends(offerId, earlier, e, r);
      }
    }
  }

  /** Dropping every event that is not ours changes nothing, with the filter and without
      it; and no admitted event ever meets a missing row. */
  lemma {:induction false} ForeignEventsDoNotMatter(offerId: string, events: seq<Event>)
    ensures TableAfter(map[], offerId, events) == TableAfter(map[], offerId, OwnEvents(offerId, events))
    ensures TableAfter(map[], offerId, events) == HandlersOnly(OwnEvents(offerId, events))
    ensures forall i :: 0 <= i < |events| && Admitted(offerId, TableAfter(map[], offerId, events[..i]), events[i])
              ==> !Missing(TableAfter(map[], offerId, events[..i]), events[i])
  {
    if events != [] {
      var earlier, e := events[..|events| - 1], events[|events| - 1];
      ForeignEventsDoNotMatter(offerId, earlier);
      KeysAreOwnReferences(offerId, earlier);
      if Own(offerId, earlier, e) {
        var own := OwnEvents(offerId, events);
        assert own[..|own| - 1] == OwnEvents(offerId, earlier);
      }
    }
  }

  lemma WriteFollowsLedger(rows: Table, history: seq<Event>, e: Event)
    requires Mirrors(rows, history)
    ensures Mirrors(Write(rows, e), history + [e])
  {
  }

  /** The table mirrors the ledger of our own events. */
  lemma {:induction false} HandlersFollowLedger(events: seq<Event>)
    ensures Mirrors(HandlersOnly(events), events)
  {
    if events != [] {
      var earlier, e := events[..|events| - 1], events[|events| - 1];
      HandlersFollowLedger(earlier);
      WriteFollowsLedger(HandlersOnly(earlier), earlier, e);
      assert earlier + [e] == events;
    }
  }

  // ----- Agreements of other offers under the same reference -----

  /** An event as the contract emits it, with the offer it happened to. The events about an
      agreement do not carry the offer, and the reference is a hash over consumer, data and
      token only, so agreements of two offers can have the same reference. */
  datatype Emitted = Emitted(provider: string, event: Event)

  /** What the service gets to see. */
  function Stream(es: seq<Emitted>): seq<Event> {
    if es == [] then [] else Stream(es[..|es| - 1]) + [es[|es| - 1].event]
  }

  function OfOffer(es: seq<Emitted>, offerId: string): seq<Event> {
    if es == [] then [] else
      var earlier, e := OfOffer(es[..|es| - 1], offerId), es[|es| - 1];
      if e.provider == offerId then earlier + [e.event] else earlier
  }

  predicate CreatedFor(es: seq<Emitted>, provider: string, r: Reference) {
    exists k :: 0 <= k < |es| && es[k].provider == provider && OwnCreation(provider, es[k].event, r)
  }

  /** Creations and offer events name their offer, and an agreement is created first. */
  predicate ContractStream(es: seq<Emitted>) {
    forall i :: 0 <= i < |es| ==>
      if es[i].event.AboutAgreement() then CreatedFor(es[..i], es[i].provider, es[i].event.reference)
      else es[i].event.provider == es[i].provider
  }

  /** Event i happens to another offer's agreement whose reference one of ours has. */
  predicate Collides(es: seq<Emitted>, offerId: string, i: int)
    requires 0 <= i < |es|
  {
    && es[i].provider != offerId && es[i].event.AboutAgreement()
    && CreatedFor(es[..i], offerId, es[i].event.reference)
  }

  lemma CreatedForNext(es: seq<Emitted>, e: Emitted, provider: string, r: Reference)
    ensures CreatedFor(es + [e], provider, r)
       <==> CreatedFor(es, provider, r) || (e.provider == provider && OwnCreation(provider, e.event, r))
  {
    var more := es + [e];
    if CreatedFor(es, provider, r) {
      var k :| 0 <= k < |es| && es[k].provider == provider && OwnCreation(provider, es[k].event, r);
      assert more[k] == es[k];
    }
    assert more[|es|] == e;
  }

  lemma ContractStreamEarlier(es: seq<Emitted>)
    requires es != [] && ContractStream(es)
    ensures ContractStream(es[..|es| - 1])
  {
    var n := |es| - 1;
    assert forall i :: 0 <= i < n ==> es[..n][i] == es[i] && es[..n][..i] == es[..i];
  }

  lemma {:induction false} CreatedForIsOwnReference(es: seq<Emitted>, offerId: string, r: Reference)
    requires ContractStream(es)
    ensures CreatedFor(es, offerId, r) <==> OwnReference(offerId, Stream(es), r)
  {
    if es != [] {
      var n := |es| - 1;
      ContractStreamEarlier(es);
      CreatedForIsOwnReference(es[..n], offerId, r);
      OwnReferenceExtends(offerId, Stream(es[..n]), es[n].event, r);
      CreatedForNext(es[..n], es[n], offerId, r);
      assert es == es[..n] + [es[n]];
    }
  }

  predicate NoneCollides(es: seq<Emitted>, offerId: string) {
    forall i :: 0 <= i < |es| ==> !Collides(es, offerId, i)
  }

  lemma CollidesEarlier(es: seq<Emitted>, offerId: string)
    requires es != []
    ensures NoneCollides(es, offerId) <==> NoneCollides(es[..|es| - 1], offerId) && !Collides(es, offerId, |es| - 1)
  {
    var n := |es| - 1;
    forall i | 0 <= i < n
      ensures Collides(es, offerId, i) <==> Collides(es[..n], offerId, i)
    {
      assert es[..n][..i] == es[..i];
    }
  }

  /** What the service takes for its own events is what happened to its offer, and more if and
      only if an event of another offer collides. */
  lemma {:induction false} OwnEventsAreOurs(es: seq<Emitted>, offerId: string)
    requires ContractStream(es)
    ensures |OwnEvents(offerId, Stream(es))| >= |OfOffer(es, offerId)|
    ensures OwnEvents(offerId, Stream(es)) == OfOffer(es, offerId) <==> NoneCollides(es, offerId)
    ensures |OwnEvents(offerId, Stream(es))| == |OfOffer(es, offerId)| <==> NoneCollides(es, offerId)
  {
    if es != [] {
      var n := |es| - 1;
      var earlier, e := es[..n], es[n].event;
      ContractStreamEarlier(es);
      OwnEventsAreOurs(earlier, offerId);
      CollidesEarlier(es, offerId);
      assert Stream(es)[..n] == Stream(earlier) && Stream(es)[n] == e by {
        StreamLength(earlier);
      }
      StreamLength(es);
      if e.AboutAgreement() {
        CreatedForIsOwnReference(earlier, offerId, e.reference);
      }
      assert Own(offerId, Stream(earlier), e) <==> es[n].provider == offerId || Collides(es, offerId, n);
    }
  }

  lemma {:induction false} StreamLength(es: seq<Emitted>)
    ensures |Stream(es)| == |es|
  {
    if es != [] {
      StreamLength(es[..|es| - 1]);
    }
  }

  /** So without collisions the table mirrors what the contract holds for our offer. */
  lemma TableMirrorsOurOffer(es: seq<Emitted>, offerId: string)
    requires ContractStream(es) && NoneCollides(es, offerId)
    ensures Mirrors(TableAfter(map[], offerId, Stream(es)), OfOffer(es, offerId))
  {
    OwnEventsAreOurs(es, offerId);
    ForeignEventsDoNotMatter(offerId, Stream(es));
    HandlersFollowLedger(OfOffer(es, offerId));
  }

  /** With one it need not: a deposit to the other offer's agreement lands on ours. */
  lemma SharedReferenceMisleads(
    offerId: string, other: string, r: Reference, data: string, a: Account, amount: nat) returns (es: seq<Emitted>)
    requires offerId != other && amount > 0
    ensures ContractStream(es) && !Mirrors(TableAfter(map[], offerId, Stream(es)), OfOffer(es, offerId))
  {
    var ours, theirs := NewAgreement(r, offerId, data, a), NewAgreement(r, other, data, a);
    var deposit := AgreementFundsDeposited(r, amount);
    var e1, e2 := [Emitted(offerId, ours)], [Emitted(offerId, ours), Emitted(other, theirs)];
    es := e2 + [Emitted(other, deposit)];
    assert es[..2] == e2 && e2[..1] == e1 && e1[..0] == [];
    assert OwnCreation(other, es[..2][1].event, r);
    assert Stream(e1) == [ours] && OfOffer(e1, offerId) == [ours];
    assert Stream(e2) == [ours, theirs] && OfOffer(e2, offerId) == [ours];
    assert Stream(es) == [ours, theirs, deposit] && OfOffer(es, offerId) == [ours];
    assert Stream(es)[..2] == Stream(e2) && Stream(e2)[..1] == Stream(e1) && Stream(e1)[..0] == [];
    var row := Agreement(data, true, None, a);
    assert TableAfter(map[], offerId, Stream(e1)) == map[r := row];
    assert TableAfter(map[], offerId, Stream(e2)) == map[r := row];
    assert r in TableAfter(map[], offerId, Stream(es));
    assert [ours][..0] == [] && Ledger([ours], r) == Some(a);
  }

  // ----- Live processing and replay -----

  /** Events processed one after the other from a stored state, each in its own world. */
  function Live(
    s: State, offerId: string, events: seq<Event>, manager: bool, retries: int, worlds: nat -> World): State
  {
    if events == [] then s else
      var n := |events| - 1;
      Process(Live(s, offerId, events[..n], manager, retries, worlds), offerId, events[n], manager, retries, worlds(n))
  }

  /** The events whose handling got as far as writing the row. */
  function Written(events: seq<Event>, worlds: nat -> World): seq<Event> {
    if events == [] then [] else
      var n := |events| - 1;
      if worlds(n).writeBroken then Written(events[..n], worlds) else Written(events[..n], worlds) + [events[n]]
  }

  lemma ProcessedTable(s: State, offerId: string, e: Event, manager: bool, retries: int, w: World)
    ensures var t := Process(s, offerId, e, manager, retries, w);
            && t.rows == (if Admitted(offerId, s.rows, e) && !w.writeBroken then Write(s.rows, e) else s.rows)
            && (!manager ==> t == s.(rows := t.rows))
  {
  }

  /** Replay without a manager and live processing with one give the same table from any stored
      state, whatever the pin jobs, unpins and broadcasts answer or throw: that of the events
      whose writes did not fail, and of all of them when none did. */
  lemma {:induction false} ReplayEqualsLive(
    s: State, offerId: string, events: seq<Event>, manager: bool, retries: int, worlds: nat -> World)
    ensures var t := Live(s, offerId, events, manager, retries, worlds);
            && t.rows == TableAfter(s.rows, offerId, Written(events, worlds))
            && (!manager ==> t == s.(rows := t.rows))
    ensures (forall i :: 0 <= i < |events| ==> !worlds(i).writeBroken) ==> Written(events, worlds) == events
  {
    if events != [] {
      var n := |events| - 1;
      ReplayEqualsLive(s, offerId, events[..n], manager, retries, worlds);
      var before := Live(s, offerId, events[..n], manager, retries, worlds);
      ProcessedTable(before, offerId, events[n], manager, retries, worlds(n));
      var written := Written(events[..n], worlds);
      assert (written + [events[n]])[..|written|] == written;
    }
  }

  // ----- What one event does -----

  /** A live creation of ours whose write and broadcast work: the row has the event's columns, no
      mark, and stays inactive if it was; it is announced; and its pin job is run, for the
      event's data and size. The job is recorded as done exactly when an allowed attempt works
      before one gives up, and then the hash is pinned; if the first attempt works, nothing
      else changes in the pins. */
  lemma CreationHandled(s: State, offerId: string, e: Event, retries: int, w: World)
    requires e.NewAgreement? && e.provider == offerId && !w.writeBroken && !w.broadcastBroken
    ensures var t, r, hash := Process(s, offerId, e, true, retries, w), e.reference, e.dataReference;
            var active := r in s.rows ==> s.rows[r].isActive;
            && t.rows == s.rows[r := Agreement(hash, active, None, e.account)]
            && t.notices == s.notices + [Notice(IAgreementNew, r)]
            && t.jobs == s.jobs[r := t.jobs[r]]
            && t.pinned - {hash} == s.pinned - {hash}
            && (retries >= 1 ==>
                  && (t.jobs[r] == Done <==> exists i: nat :: i < retries && FirstToWork(e.account.size, w.tries, i))
                  && (t.jobs[r] == Done ==> t.pinned == s.pinned + {hash}))
            && (retries >= 1 && Works(e.account.size, w.tries(0)) ==> t.jobs[r] == Done)
  {
    var hash, size := e.dataReference, e.account.size;
    if retries >= 1 {
      ReturnsExactly(s.pinned, hash, size, w.tries, retries);
      PinsAfterRetries(s.pinned, hash, size, w.tries, LastAttempt(size, w.tries, retries, 0) + 1);
      if Works(size, w.tries(0)) {
        assert FirstToWork(size, w.tries, 0);
      }
    }
  }

  /** What is not announced is not pinned: when the broadcast fails, and in a replay. When the
      write fails nothing happens at all. */
  lemma CreationUnannounced(s: State, offerId: string, e: Event, manager: bool, retries: int, w: World)
    requires e.NewAgreement? && e.provider == offerId && (w.writeBroken || w.broadcastBroken || !manager)
    ensures w.writeBroken ==> Process(s, offerId, e, manager, retries, w) == s
    ensures !w.writeBroken ==>
              var active := e.reference in s.rows ==> s.rows[e.reference].isActive;
              var row := Agreement(e.dataReference, active, None, e.account);
              Process(s, offerId, e, manager, retries, w) == s.(rows := s.rows[e.reference := row])
  {
  }

  /** A live stop of one of our agreements: the row is inactive, its hash is unpinned unless the
      node refuses, and the stop is announced if unpin and broadcast work. A replayed one only
      writes the row. */
  lemma StopHandled(s: State, offerId: string, r: Reference, retries: int, w: World)
    requires r in s.rows && !w.writeBroken
    ensures Process(s, offerId, AgreementStopped(r), true, retries, w)
         == State(s.rows[r := s.rows[r].(isActive := false)],
                  if w.unpin == Refused then s.pinned else s.pinned - {s.rows[r].dataReference},
                  if w.unpin == Worked && !w.broadcastBroken then s.notices + [Notice(IAgreementStopped, r)]
                  else s.notices,
                  s.jobs)
    ensures Process(s, offerId, AgreementStopped(r), false, retries, w)
         == s.(rows := s.rows[r := s.rows[r].(isActive := false)])
  {
  }

  /** A deposit, withdrawal or payout changes the balance, and a payout the date; nothing else. */
  lemma FundsHandled(
    s: State, offerId: string, r: Reference, amount: nat, date: int, manager: bool, retries: int, w: World)
    requires r in s.rows && !w.writeBroken
    ensures var row := s.rows[r];
            var funds := row.account.availableFunds;
            && Process(s, offerId, AgreementFundsDeposited(r, amount), manager, retries, w)
            == s.(rows := s.rows[r := row.(account := row.account.(availableFunds := funds + amount))])
            && Process(s, offerId, AgreementFundsWithdrawn(r, amount), manager, retries, w)
            == s.(rows := s.rows[r := row.(account := row.account.(availableFunds := funds - amount))])
            && Process(s, offerId, AgreementFundsPayout(r, amount, date), manager, retries, w)
            == s.(rows := s.rows[r :=
                 row.(account := row.account.(availableFunds := funds - amount, lastPayout := date))])
  {
  }

  /** What names another offer, is about an unknown agreement or about the offer itself, or cannot
      be written, does nothing. */
  lemma NothingHandled(s: State, offerId: string, e: Event, manager: bool, retries: int, w: World)
    requires if e.NewAgreement? then e.provider != offerId || w.writeBroken
             else if e.OfferEvent? then true else e.reference !in s.rows || w.writeBroken
    ensures Process(s, offerId, e, manager, retries, w) == s
  {
  }

  // ----- The processor -----

  method ProcessEvent(s: Service, offerId: string, e: Event, manager: bool, w: World)
    modifies s, s.node
    ensures s.View() == Process(old(s.View()), offerId, e, manager, s.retries, w)
  {
    if !e.AboutAgreement() && e.provider == offerId {
      if e.NewAgreement? {
        var _ := s.NewAgreement(e, manager, w);
      }
      return;
    }
    if e.AboutAgreement() && e.reference in s.rows {
      if e.AgreementStopped? {
        var _ := s.AgreementStopped(e, manager, w);
      } else {
        var _ := s.FundsChanged(e, manager, w);
      }
    }
  }

  /** Pin jobs for these agreements, one after the other. */
  function PinEach(s: State, refs: seq<Reference>, retries: int, worlds: nat -> World): (t: State)
    requires forall i :: 0 <= i < |refs| ==> refs[i] in s.rows
    ensures t.rows == s.rows && t.notices == s.notices
  {
    if refs == [] then s else
      var n := |refs| - 1;
      PinFor(PinEach(s, refs[..n], retries, worlds), refs[n], retries, worlds(n)).state
  }

  lemma PinOneMore(s: State, refs: seq<Reference>, r: Reference, retries: int, worlds: nat -> World)
    requires r in s.rows && forall i :: 0 <= i < |refs| ==> refs[i] in s.rows
    ensures PinEach(s, refs + [r], retries, worlds)
         == PinFor(PinEach(s, refs, retries, worlds), r, retries, worlds(|refs|)).state
  {
  }

  lemma {:induction false} JobsOfTried(
    s: State, tried: seq<Reference>, retries: int, worlds: nat -> World, r: Reference)
    requires forall i :: 0 <= i < |tried| ==> tried[i] in s.rows
    requires r in PinEach(s, tried, retries, worlds).jobs
    ensures r in s.jobs || r in tried
  {
    if tried != [] {
      var n := |tried| - 1;
      if r != tried[n] {
        JobsOfTried(s, tried[..n], retries, worlds, r);
      }
    }
  }

  lemma JobsOfAllTried(s: State, tried: seq<Reference>, retries: int, worlds: nat -> World)
    requires forall i :: 0 <= i < |tried| ==> tried[i] in s.rows
    ensures forall r :: r in PinEach(s, tried, retries, worlds).jobs ==> r in s.jobs || r in tried
  {
    forall r | r in PinEach(s, tried, retries, worlds).jobs
      ensures r in s.jobs || r in tried
    {
      JobsOfTried(s, tried, retries, worlds, r);
    }
  }

  function FundedRefs(rows: Table, now: int): set<Reference> {
    set r | r in rows && rows[r].Funded(now)
  }

  /** These agreements are pinned by jobs that returned normally. */
  ghost predicate ArePinned(s: State, refs: set<Reference>) {
    forall r :: r in refs && r in s.rows ==> s.rows[r].dataReference in s.pinned && r in s.jobs && s.jobs[r].Done?
  }

  /** A pin job that returns normally takes no pin away. */
  lemma PinForPins(s: State, refs: set<Reference>, r: Reference, retries: int, w: World)
    requires r in s.rows && retries >= 1 && ArePinned(s, refs)
    requires !PinFor(s, r, retries, w).thrown
    ensures ArePinned(PinFor(s, r, retries, w).state, refs + {r})
  {
    var row := s.rows[r];
    NormalReturnPins(s.pinned, row.dataReference, row.account.size, w.tries, retries);
  }

  ghost predicate AllFunded(rows: Table, tried: seq<Reference>, now: int) {
    forall i :: 0 <= i < |tried| ==> tried[i] in rows && rows[tried[i]].Funded(now)
  }

  /** Where the pinning stands: of the rows seen, those with funds were tried, and all worked. */
  ghost predicate PinsSoFar(
    s: State, t: State, seen: set<Reference>, tried: seq<Reference>, now: int, retries: int, worlds: nat -> World)
  {
    && AllFunded(s.rows, tried, now)
    && t == PinEach(s, tried, retries, worlds)
    && Enumerates(tried, seen * FundedRefs(s.rows, now))
    && (retries >= 1 ==> ArePinned(t, seen * FundedRefs(s.rows, now)))
  }

  lemma SkipsUnfunded(
    s: State, t: State, seen: set<Reference>, tried: seq<Reference>, now: int, retries: int, worlds: nat -> World,
    r: Reference)
    requires PinsSoFar(s, t, seen, tried, now, retries, worlds) && r in s.rows && !s.rows[r].Funded(now)
    ensures PinsSoFar(s, t, seen + {r}, tried, now, retries, worlds)
  {
  }

  lemma EnumeratesMore(found: seq<Reference>, refs: set<Reference>, r: Reference)
    requires Enumerates(found, refs) && r !in refs
    ensures Enumerates(found + [r], refs + {r})
  {
    forall i | 0 <= i < |found|
      ensures (found + [r])[i] != r
    {
      assert found[i] in found;
    }
  }

  lemma OneMoreFunded(rows: Table, seen: set<Reference>, tried: seq<Reference>, now: int, r: Reference)
    requires AllFunded(rows, tried, now) && Enumerates(tried, seen * FundedRefs(rows, now))
    requires r in rows && r !in seen && rows[r].Funded(now)
    ensures AllFunded(rows, tried + [r], now)
    ensures (seen + {r}) * FundedRefs(rows, now) == seen * FundedRefs(rows, now) + {r}
    ensures Enumerates(tried + [r], (seen + {r}) * FundedRefs(rows, now))
  {
    var refs := seen * FundedRefs(rows, now);
    assert (seen + {r}) * FundedRefs(rows, now) == refs + {r};
    EnumeratesMore(tried, refs, r);
  }

  lemma PinsFunded(
    s: State, t: State, seen: set<Reference>, tried: seq<Reference>, now: int, retries: int, worlds: nat -> World,
    r: Reference)
    requires PinsSoFar(s, t, seen, tried, now, retries, worlds)
    requires r in s.rows && r !in seen && s.rows[r].Funded(now)
    ensures r in t.rows && AllFunded(s.rows, tried + [r], now)
    ensures var pinned := PinFor(t, r, retries, worlds(|tried|));
            && pinned.state == PinEach(s, tried + [r], retries, worlds)
            && (!pinned.thrown ==> PinsSoFar(s, pinned.state, seen + {r}, tried + [r], now, retries, worlds))
  {
    OneMoreFunded(s.rows, seen, tried, now, r);
    PinOneMore(s, tried, r, retries, worlds);
    if retries >= 1 && !PinFor(t, r, retries, worlds(|tried|)).thrown {
      PinForPins(t, seen * FundedRefs(s.rows, now), r, retries, worlds(|tried|));
    }
  }

  /** Where it ends, with the condition spelt out. */
  lemma AllPinned(
    s: State, t: State, seen: set<Reference>, tried: seq<Reference>, now: int, retries: int, worlds: nat -> World)
    requires PinsSoFar(s, t, seen, tried, now, retries, worlds) && s.rows.Keys <= seen
    ensures t.rows == s.rows && Enumerates(tried, FundedRefs(s.rows, now))
    ensures retries >= 1 ==>
              && ArePinned(t, FundedRefs(s.rows, now))
              && forall r :: r in s.rows && s.rows[r].account.HasSufficientFunds(now, DECIMAL_PLACES) ==>
                   s.rows[r].dataReference in t.pinned && r in t.jobs && t.jobs[r] == Done
    ensures forall r :: r in t.jobs ==> r in s.jobs || r in tried
  {
    assert seen * FundedRefs(s.rows, now) == FundedRefs(s.rows, now);
    JobsOfAllTried(s, tried, retries, worlds);
    forall r | r in s.rows && s.rows[r].account.HasSufficientFunds(now, DECIMAL_PLACES)
      ensures r in FundedRefs(s.rows, now)
    {
    }
  }

  /** Pins every row with funds, active or not; the first failing job aborts. `tried` are the
      rows for which a job was run. */
  method PinFundedAgreements(s: Service, now: int, worlds: nat -> World)
    returns (thrown: bool, ghost tried: seq<Reference>)
    modifies s`jobs, s.node
    ensures AllFunded(s.rows, tried, now)
    ensures s.View() == PinEach(old(s.View()), tried, s.retries, worlds)
    ensures !thrown ==> Enumerates(tried, FundedRefs(s.rows, now))
    ensures !thrown && s.retries >= 1 ==> ArePinned(s.View(), FundedRefs(s.rows, now))
    ensures thrown ==> tried != [] && s.jobs[tried[|tried| - 1]].Failed?
    ensures !thrown && s.retries >= 1 ==>
              forall r :: r in s.rows && s.rows[r].account.HasSufficientFunds(now, DECIMAL_PLACES) ==>
                s.rows[r].dataReference in s.node.pinned && r in s.jobs && s.jobs[r] == Done
    ensures forall r :: r in s.jobs ==> r in old(s.jobs) || r in tried
    ensures forall r :: r in tried ==> r in s.rows && s.rows[r].account.HasSufficientFunds(now, DECIMAL_PLACES)
  {
    ghost var before := s.View();
    var found := FindAll(s.rows.Keys);
    ghost var seen := {};
    tried := [];
    var calls, j := 0, 0;
    while j < |found|
      invariant 0 <= j <= |found| && |tried| == calls && AreHandled(found, j, seen)
      invariant PinsSoFar(before, s.View(), seen, tried, now, s.retries, worlds)
    {
      var r := found[j];
      HandleNext(found, before.rows.Keys, j, seen);
      if s.rows[r].Funded(now) {
        PinsFunded(before, s.View(), seen, tried, now, s.retries, worlds, r);
        thrown := s.PinAgreement(r, worlds(calls));
        tried, calls := tried + [r], calls + 1;
        if thrown {
          JobsOfAllTried(before, tried, s.retries, worlds);
          return;
        }
      } else {
        SkipsUnfunded(before, s.View(), seen, tried, now, s.retries, worlds, r);
      }
      seen := seen + {r};
      j := j + 1;
    }
    AllHandled(found, before.rows.Keys, seen);
    AllPinned(before, s.View(), seen, tried, now, s.retries, worlds);
    thrown := false;
  }

  /** Precaching over any stored state, on a first start the empty one: replay the past events
      without a manager, then pin what has funds. */
  method Precache(
    s: Service, offerId: string, events: seq<Event>, now: int, replayed: nat -> World, worlds: nat -> World)
    returns (thrown: bool, ghost tried: seq<Reference>)
    modifies s, s.node
    ensures var rows := TableAfter(old(s.rows), offerId, Written(events, replayed));
            && AllFunded(rows, tried, now)
            && s.View() == PinEach(old(s.View()).(rows := rows), tried, s.retries, worlds)
            && (!thrown ==> Enumerates(tried, FundedRefs(rows, now)))
            && (!thrown && s.retries >= 1 ==> ArePinned(s.View(), FundedRefs(rows, now)))
            && (thrown ==> tried != [] && s.jobs[tried[|tried| - 1]].Failed?)
    ensures !thrown && s.retries >= 1 ==>
              forall r :: r in s.rows && s.rows[r].account.HasSufficientFunds(now, DECIMAL_PLACES) ==>
                s.rows[r].dataReference in s.node.pinned && r in s.jobs && s.jobs[r] == Done
    ensures forall r :: r in tried ==> r in s.rows && s.rows[r].account.HasSufficientFunds(now, DECIMAL_PLACES)
    ensures forall r :: r in s.jobs ==> r in old(s.jobs) || r in tried
  {
    ghost var before := s.View();
    var i := 0;
    while i < |events|
      invariant 0 <= i <= |events|
      invariant s.View() == Live(before, offerId, events[..i], false, s.retries, replayed)
    {
      assert events[..i + 1][..i] == events[..i];
      ProcessEvent(s, offerId, events[i], false, replayed(i));
      i := i + 1;
    }
    assert events[..i] == events;
    ReplayEqualsLive(before, offerId, events, false, s.retries, replayed);
    thrown, tried := PinFundedAgreements(s, now, worlds);
  }
}

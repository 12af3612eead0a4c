/** Garbage collection of expired agreements, run on every new block. One pass marks the
    unfunded rows with the block number; a second looks again at rows marked long enough
    ago and either clears the mark or unpins, announces and deactivates. Every query,
    save, unpin and broadcast may throw, before or after it took effect; that ends the run. */
module Gc {
  import opened Wrappers
  import opened BigNumbers
  import opened PinJobs
  import opened Agreements
  import opened AgreementEvents

  /** The block being handled, the configured confirmations, and the clock when each pass
      looks at a row. */
  datatype Block = Block(
    number: int,
    confirmations: int,
    marking: Reference -> int,
    collecting: Reference -> int)
  {
    /** The block as one row meets it. */
    function At(r: Reference): Moment {
      Moment(number, confirmations, marking(r), collecting(r))
    }

    /** The second pass comes after the first. */
    ghost predicate Timely() {
      forall r :: marking(r) <= collecting(r)
    }
  }

  datatype Moment = Moment(number: int, confirmations: int, marking: int, collecting: int)

  /** How a run ends. UnpinLost: the unpin of this row's hash took effect and threw. */
  datatype GcEnd =
    | Completed
    | AbortedByQuery
    | AbortedBySave
    | AbortedByUnpin
    | UnpinLost(reference: Reference)
    | AbortedByBroadcast

  /** Nothing was unpinned or announced for a row that is still active. */
  predicate Tidy(end: GcEnd) {
    end in {Completed, AbortedByQuery, AbortedByUnpin}
  }

  // ----- What one run does to a row -----

  predicate Unmarked(a: Agreement) {
    a.isActive && a.expiredAtBlockNumber == None
  }

  function MarkRow(a: Agreement, m: Moment): Agreement {
    if Unmarked(a) && !a.Funded(m.marking) then a.(expiredAtBlockNumber := Some(m.number)) else a
  }

  predicate Ripe(a: Agreement, m: Moment) {
    a.isActive && a.expiredAtBlockNumber.Some? && a.expiredAtBlockNumber.value <= m.number - m.confirmations
  }

  function CollectRow(a: Agreement, m: Moment): Agreement {
    if !Ripe(a, m) then a
    else if a.Funded(m.collecting) then a.(expiredAtBlockNumber := None)
    else a.(isActive := false)
  }

  function GcRow(a: Agreement, m: Moment): Agreement {
    CollectRow(MarkRow(a, m), m)
  }

  predicate Collected(a: Agreement, m: Moment) {
    Ripe(MarkRow(a, m), m) && !a.Funded(m.collecting)
  }

  function GcTable(rows: Table, b: Block): Table {
    map r | r in rows :: GcRow(rows[r], b.At(r))
  }

  function CollectedRefs(rows: Table, b: Block): set<Reference> {
    set r | r in rows && Collected(rows[r], b.At(r))
  }

  function Hashes(rows: Table, refs: set<Reference>): set<string> {
    set r | r in refs && r in rows :: rows[r].dataReference
  }

  function GcPins(s: State, b: Block): set<string> {
    s.pinned - Hashes(s.rows, CollectedRefs(s.rows, b))
  }

  // ----- What a run, whole or cut short, leaves -----

  function Deactivated(before: Table, after: Table): set<Reference> {
    set r | r in before && r in after && before[r].isActive && !after[r].isActive
  }

  function ExpiryNotices(refs: seq<Reference>): seq<Notice> {
    seq(|refs|, i requires 0 <= i < |refs| => Notice(IAgreementExpired, refs[i]))
  }

  /** The unpin of r, which is being collected, is all that is ahead of the rows. */
  ghost predicate OneUnpinAhead(s: State, t: State, gone: set<Reference>, all: set<Reference>, r: Reference) {
    && r in s.rows && r in all && r !in gone
    && t.pinned == s.pinned - Hashes(s.rows, gone) - {s.rows[r].dataReference}
  }

  /** Each row is as before, marked, or fully handled; pins go only with collected rows and
      before the row is deactivated; the expiry of a row is announced in between. */
  ghost predicate GcStep(s: State, t: State, b: Block, end: GcEnd, announced: seq<Reference>) {
    var gone := Deactivated(s.rows, t.rows);
    && t.jobs == s.jobs
    && t.rows.Keys == s.rows.Keys
    && (forall r :: r in s.rows ==>
          t.rows[r] in {s.rows[r], MarkRow(s.rows[r], b.At(r)), GcRow(s.rows[r], b.At(r))})
    && GcPins(s, b) <= t.pinned <= s.pinned - Hashes(s.rows, gone)
    && t.notices == s.notices + ExpiryNotices(announced)
    && (forall r :: r in announced ==> r in CollectedRefs(s.rows, b))
    && (forall r :: r in gone ==> r in announced)
    && (Tidy(end) ==> t.pinned == s.pinned - Hashes(s.rows, gone) && Enumerates(announced, gone))
    && (end.UnpinLost? ==>
          OneUnpinAhead(s, t, gone, CollectedRefs(s.rows, b), end.reference) && Enumerates(announced, gone))
    && (end == Completed ==> t.rows == GcTable(s.rows, b))
  }

  // ----- The two passes -----

  function PartlyMarked(rows: Table, handled: set<Reference>, b: Block): Table {
    map r | r in rows :: if r in handled then MarkRow(rows[r], b.At(r)) else rows[r]
  }

  function PartlyCollected(rows: Table, handled: set<Reference>, b: Block): Table {
    map r | r in rows :: if r in handled then CollectRow(rows[r], b.At(r)) else rows[r]
  }

  lemma MarkOneMore(rows: Table, handled: set<Reference>, r: Reference, b: Block)
    requires r in rows && r !in handled
    ensures PartlyMarked(rows, handled + {r}, b) == PartlyMarked(rows, handled, b)[r := MarkRow(rows[r], b.At(r))]
    ensures PartlyMarked(rows, handled, b)[r] == rows[r]
  {
  }

  lemma MarkedAll(rows: Table, handled: set<Reference>, b: Block)
    requires forall r :: r in rows && Unmarked(rows[r]) ==> r in handled
    ensures PartlyMarked(rows, handled, b) == PartlyMarked(rows, rows.Keys, b)
  {
  }

  /** Some call threw. */
  ghost predicate SomeFails(replies: nat -> Reply) {
    exists i :: !replies(i).Worked?
  }

  /** One row of the first pass. */
  method MarkOne(
    s: Service, b: Block, r: Reference, replies: nat -> Reply, firstCall: nat,
    ghost before: Table, ghost handled: set<Reference>)
    returns (end: GcEnd, calls: nat, ghost nowHandled: set<Reference>)
    requires r in before && r !in handled && Unmarked(before[r]) && s.rows == PartlyMarked(before, handled, b)
    modifies s`rows
    ensures end in {Completed, AbortedBySave} && (end != Completed ==> SomeFails(replies))
    ensures s.rows == PartlyMarked(before, nowHandled, b)
    ensures end == Completed ==> nowHandled == handled + {r}
  {
    calls, end, nowHandled := firstCall, Completed, handled + {r};
    MarkOneMore(before, handled, r, b);
    if !s.rows[r].Funded(b.marking(r)) {
      if replies(calls).Refused? {
        return AbortedBySave, calls, handled;
      }
      s.rows := s.rows[r := s.rows[r].(expiredAtBlockNumber := Some(b.number))];
      end := if replies(calls).Worked? then Completed else AbortedBySave;
      calls := calls + 1;
    }
  }

  /** The first pass. */
  method MarkExpired(s: Service, b: Block, replies: nat -> Reply)
    returns (end: GcEnd, calls: nat, ghost handled: set<Reference>)
    modifies s`rows
    ensures end in {Completed, AbortedByQuery, AbortedBySave}
    ensures end != Completed ==> SomeFails(replies)
    ensures s.rows == PartlyMarked(old(s.rows), handled, b)
    ensures end == Completed ==> s.rows == PartlyMarked(old(s.rows), old(s.rows.Keys), b)
  {
    ghost var before := s.rows;
    handled := {};
    if !replies(0).Worked? {
      return AbortedByQuery, 1, handled;
    }
    ghost var unmarked := set r | r in s.rows && Unmarked(s.rows[r]);
    var nonExpired := FindAll(set r | r in s.rows && Unmarked(s.rows[r]));
    var i := 0;
    calls := 1;
    while i < |nonExpired|
      invariant 0 <= i <= |nonExpired| && AreHandled(nonExpired, i, handled)
      invariant s.rows == PartlyMarked(before, handled, b)
    {
      HandleNext(nonExpired, unmarked, i, handled);
      end, calls, handled := MarkOne(s, b, nonExpired[i], replies, calls, before, handled);
      if end != Completed {
        return;
      }
      i := i + 1;
    }
    AllHandled(nonExpired, unmarked, handled);
    MarkedAll(before, handled, b);
    end := Completed;
  }

  /** The unfunded among the rows handled by the second pass. */
  function Dropped(rows: Table, handled: set<Reference>, b: Block): set<Reference> {
    set r | r in handled && r in rows && Ripe(rows[r], b.At(r)) && !rows[r].Funded(b.collecting(r))
  }

  /** Where the second pass stands: rows, pins and notices move together, except that in an
      aborted run one more hash may be unpinned, and one more row announced. */
  ghost predicate CollectProgress(
    s: State, t: State, b: Block, handled: set<Reference>, end: GcEnd, announced: seq<Reference>)
  {
    var dropped := Dropped(s.rows, handled, b);
    var all := Dropped(s.rows, s.rows.Keys, b);
    && t.rows == PartlyCollected(s.rows, handled, b)
    && t.jobs == s.jobs
    && t.notices == s.notices + ExpiryNotices(announced)
    && s.pinned - Hashes(s.rows, all) <= t.pinned <= s.pinned - Hashes(s.rows, dropped)
    && (forall r :: r in announced ==> r in all)
    && (forall r :: r in dropped ==> r in announced)
    && (Tidy(end) ==> t.pinned == s.pinned - Hashes(s.rows, dropped) && Enumerates(announced, dropped))
    && (end.UnpinLost? ==> OneUnpinAhead(s, t, dropped, all, end.reference) && Enumerates(announced, dropped))
  }

  lemma CollectOneMore(rows: Table, handled: set<Reference>, r: Reference, b: Block)
    requires r in rows && r !in handled
    ensures PartlyCollected(rows, handled + {r}, b)
         == PartlyCollected(rows, handled, b)[r := CollectRow(rows[r], b.At(r))]
    ensures PartlyCollected(rows, handled, b)[r] == rows[r]
  {
  }

  lemma CollectedAll(rows: Table, handled: set<Reference>, b: Block)
    requires forall r :: r in rows && Ripe(rows[r], b.At(r)) ==> r in handled
    ensures PartlyCollected(rows, handled, b) == PartlyCollected(rows, rows.Keys, b)
  {
  }

  lemma HashesMore(rows: Table, refs: set<Reference>, r: Reference)
    requires r in rows
    ensures Hashes(rows, refs + {r}) == Hashes(rows, refs) + {rows[r].dataReference}
  {
  }

  lemma HashesMonotone(rows: Table, refs: set<Reference>, more: set<Reference>)
    requires refs <= more
    ensures Hashes(rows, refs) <= Hashes(rows, more)
  {
  }

  lemma ExpiryNoticesMore(announced: seq<Reference>, r: Reference)
    ensures ExpiryNotices(announced + [r]) == ExpiryNotices(announced) + [Notice(IAgreementExpired, r)]
  {
  }

  /** A funded row of the second pass: only its mark changes. */
  lemma KeepOneMore(s: State, t: State, b: Block, handled: set<Reference>, announced: seq<Reference>, r: Reference)
    requires CollectProgress(s, t, b, handled, Completed, announced)
    requires r in s.rows && r !in handled && s.rows[r].Funded(b.collecting(r))
    ensures r in t.rows && t.rows[r] == s.rows[r]
    ensures CollectProgress(s, t.(rows := t.rows[r := CollectRow(s.rows[r], b.At(r))]), b, handled + {r},
                            Completed, announced)
  {
  }

  /** One more row dropped, on the side of the sets. */
  lemma DroppedMore(s: State, t: State, b: Block, handled: set<Reference>, announced: seq<Reference>, r: Reference)
    requires CollectProgress(s, t, b, handled, Completed, announced)
    requires r in s.rows && r !in handled && Ripe(s.rows[r], b.At(r)) && !s.rows[r].Funded(b.collecting(r))
    ensures var dropped, all := Dropped(s.rows, handled, b), Dropped(s.rows, s.rows.Keys, b);
            && Dropped(s.rows, handled + {r}, b) == dropped + {r} && r in all && r !in dropped && dropped + {r} <= all
            && Hashes(s.rows, dropped + {r}) == Hashes(s.rows, dropped) + {s.rows[r].dataReference}
            && Hashes(s.rows, dropped + {r}) <= Hashes(s.rows, all)
            && Enumerates(announced + [r], dropped + {r})
  {
    var dropped, all := Dropped(s.rows, handled, b), Dropped(s.rows, s.rows.Keys, b);
    assert Dropped(s.rows, handled + {r}, b) == dropped + {r};
    HashesMore(s.rows, dropped, r);
    HashesMonotone(s.rows, dropped + {r}, all);
    assert r !in announced;
  }

  /** An unfunded row of the second pass is unpinned first, */
  lemma UnpinOneMore(s: State, t: State, b: Block, handled: set<Reference>, announced: seq<Reference>, r: Reference)
    requires CollectProgress(s, t, b, handled, Completed, announced)
    requires r in s.rows && r !in handled && Ripe(s.rows[r], b.At(r)) && !s.rows[r].Funded(b.collecting(r))
    ensures r in t.rows && t.rows[r] == s.rows[r]
    ensures var unpinned := t.(pinned := t.pinned - {s.rows[r].dataReference});
            && CollectProgress(s, unpinned, b, handled, UnpinLost(r), announced)
            && CollectProgress(s, unpinned, b, handled, AbortedByBroadcast, announced)
  {
    DroppedMore(s, t, b, handled, announced, r);
    CollectOneMore(s.rows, handled, r, b);
  }

  /** then announced, */
  lemma TellOneMore(s: State, t: State, b: Block, handled: set<Reference>, announced: seq<Reference>, r: Reference)
    requires CollectProgress(s, t, b, handled, Completed, announced)
    requires r in s.rows && r !in handled && Ripe(s.rows[r], b.At(r)) && !s.rows[r].Funded(b.collecting(r))
    ensures var told := Announce(t.(pinned := t.pinned - {s.rows[r].dataReference}), IAgreementExpired, r);
            && CollectProgress(s, told, b, handled, AbortedByBroadcast, announced + [r])
            && CollectProgress(s, told, b, handled, AbortedBySave, announced + [r])
  {
    DroppedMore(s, t, b, handled, announced, r);
    ExpiryNoticesMore(announced, r);
  }

  /** and then deactivated. */
  lemma DropOneMore(s: State, t: State, b: Block, handled: set<Reference>, announced: seq<Reference>, r: Reference)
    requires CollectProgress(s, t, b, handled, Completed, announced)
    requires r in s.rows && r !in handled && Ripe(s.rows[r], b.At(r)) && !s.rows[r].Funded(b.collecting(r))
    ensures var told := Announce(t.(pinned := t.pinned - {s.rows[r].dataReference}), IAgreementExpired, r);
            var dropped := told.(rows := told.rows[r := CollectRow(s.rows[r], b.At(r))]);
            && CollectProgress(s, dropped, b, handled + {r}, Completed, announced + [r])
            && CollectProgress(s, dropped, b, handled + {r}, AbortedBySave, announced + [r])
  {
    DroppedMore(s, t, b, handled, announced, r);
    CollectOneMore(s.rows, handled, r, b);
    ExpiryNoticesMore(announced, r);
  }

  /** Unpin, announce, deactivate one row, as far as nothing throws; a hash that was not
      pinned is no obstacle. `effect` says whether the call that threw took effect. */
  method DropExpired(s: Service, r: Reference, replies: nat -> Reply, firstCall: nat)
    returns (end: GcEnd, calls: nat, effect: bool)
    requires r in s.rows
    modifies s`rows, s`notices, s.node
    ensures end != Completed ==> SomeFails(replies)
    ensures end in {Completed, AbortedByUnpin, UnpinLost(r), AbortedByBroadcast, AbortedBySave}
    ensures var before := old(s.View());
            var unpinned := before.(pinned := before.pinned - {before.rows[r].dataReference});
            var told := Announce(unpinned, IAgreementExpired, r);
            var dropped := told.(rows := told.rows[r := told.rows[r].(isActive := false)]);
            s.View() == match end
                        case UnpinLost(_) => unpinned
                        case AbortedByBroadcast => if effect then told else unpinned
                        case AbortedBySave => if effect then dropped else told
                        case Completed => dropped
                        case _ => before
  {
    calls := firstCall;
    effect := replies(calls).ReplyLost?;
    var reply := s.Unpin(s.rows[r].dataReference, replies(calls));
    if reply == UnpinFailed {
      return (if effect then UnpinLost(r) else AbortedByUnpin), calls, effect;
    }
    calls := calls + 1;
    effect := replies(calls).ReplyLost?;
    var _ := s.Broadcast(IAgreementExpired, r, replies(calls).Refused?);
    if !replies(calls).Worked? {
      return AbortedByBroadcast, calls, effect;
    }
    calls := calls + 1;
    effect := replies(calls).ReplyLost?;
    if !replies(calls).Refused? {
      s.rows := s.rows[r := s.rows[r].(isActive := false)];
    }
    end := if replies(calls).Worked? then Completed else AbortedBySave;
  }

  /** One row of the second pass. */
  method CollectOne(
    s: Service, b: Block, r: Reference, replies: nat -> Reply, firstCall: nat,
    ghost before: State, ghost handled: set<Reference>, ghost announced: seq<Reference>)
    returns (end: GcEnd, calls: nat, ghost nowHandled: set<Reference>, ghost nowAnnounced: seq<Reference>)
    requires CollectProgress(before, s.View(), b, handled, Completed, announced)
    requires r in before.rows && r !in handled && Ripe(before.rows[r], b.At(r))
    modifies s`rows, s`notices, s.node
    ensures end != Completed ==> SomeFails(replies)
    ensures CollectProgress(before, s.View(), b, nowHandled, end, nowAnnounced)
    ensures end == Completed ==> nowHandled == handled + {r}
  {
    calls, nowHandled, nowAnnounced := firstCall, handled, announced;
    CollectOneMore(before.rows, handled, r, b);
    if s.rows[r].Funded(b.collecting(r)) {
      KeepOneMore(before, s.View(), b, handled, announced, r);
      if !replies(calls).Refused? {
        s.rows := s.rows[r := s.rows[r].(expiredAtBlockNumber := None)];
        nowHandled := handled + {r};
      }
      end := if replies(calls).Worked? then Completed else AbortedBySave;
      calls := calls + 1;
    } else {
      UnpinOneMore(before, s.View(), b, handled, announced, r);
      TellOneMore(before, s.View(), b, handled, announced, r);
      DropOneMore(before, s.View(), b, handled, announced, r);
      var effect;
      end, calls, effect := DropExpired(s, r, replies, calls);
      calls := calls + 1;
      if end in {AbortedBySave, Completed} || (end == AbortedByBroadcast && effect) {
        nowAnnounced := announced + [r];
      }
      if end == Completed || (end == AbortedBySave && effect) {
        nowHandled := handled + {r};
      }
    }
  }

  /** The second pass. */
  method CollectExpired(s: Service, b: Block, replies: nat -> Reply, firstCall: nat)
    returns (end: GcEnd, ghost announced: seq<Reference>, ghost handled: set<Reference>)
    modifies s`rows, s`notices, s.node
    ensures end != Completed ==> SomeFails(replies)
    ensures CollectProgress(old(s.View()), s.View(), b, handled, end, announced)
    ensures end == Completed ==> s.rows == PartlyCollected(old(s.rows), old(s.rows.Keys), b)
  {
    ghost var before := s.View();
    handled, announced := {}, [];
    assert ExpiryNotices([]) == [];
    if !replies(firstCall).Worked? {
      return AbortedByQuery, announced, handled;
    }
    var calls: nat := firstCall + 1;
    ghost var ripe := set r | r in s.rows && Ripe(s.rows[r], b.At(r));
    var toUnpin := FindAll(set r | r in s.rows && Ripe(s.rows[r], b.At(r)));
    var i := 0;
    while i < |toUnpin|
      invariant 0 <= i <= |toUnpin| && AreHandled(toUnpin, i, handled)
      invariant CollectProgress(before, s.View(), b, handled, Completed, announced)
    {
      HandleNext(toUnpin, ripe, i, handled);
      end, calls, handled, announced := CollectOne(s, b, toUnpin[i], replies, calls, before, handled, announced);
      if end != Completed {
        return;
      }
      i := i + 1;
    }
    AllHandled(toUnpin, ripe, handled);
    CollectedAll(before.rows, handled, b);
    end := Completed;
  }

  // ----- A whole run -----

  lemma HashesIgnoreMarks(rows: Table, other: Table, refs: set<Reference>)
    requires rows.Keys == other.Keys
    requires forall r :: r in rows ==> rows[r].dataReference == other[r].dataReference
    ensures Hashes(rows, refs) == Hashes(other, refs)
  {
  }

  /** Where a run cut short in the first pass stands. */
  lemma MarkedIsStep(s: State, b: Block, handled: set<Reference>, end: GcEnd)
    requires end == AbortedBySave || end == AbortedByQuery
    ensures GcStep(s, s.(rows := PartlyMarked(s.rows, handled, b)), b, end, [])
  {
  }

  lemma CollectedAfterMarks(s: State, mid: State, b: Block)
    requires mid == s.(rows := PartlyMarked(s.rows, s.rows.Keys, b))
    ensures Dropped(mid.rows, mid.rows.Keys, b) == CollectedRefs(s.rows, b)
    ensures forall refs :: Hashes(mid.rows, refs) == Hashes(s.rows, refs)
  {
  }

  lemma DroppedAreDeactivated(s: State, mid: State, t: State, b: Block, handled: set<Reference>)
    requires mid == s.(rows := PartlyMarked(s.rows, s.rows.Keys, b))
    requires t.rows == PartlyCollected(mid.rows, handled, b)
    ensures Deactivated(s.rows, t.rows) == Dropped(mid.rows, handled, b)
  {
  }

  lemma RowsAfterPasses(s: State, mid: State, t: State, b: Block, handled: set<Reference>)
    requires mid == s.(rows := PartlyMarked(s.rows, s.rows.Keys, b))
    requires t.rows == PartlyCollected(mid.rows, handled, b)
    ensures t.rows.Keys == s.rows.Keys
    ensures forall r :: r in s.rows ==> t.rows[r] in {MarkRow(s.rows[r], b.At(r)), GcRow(s.rows[r], b.At(r))}
    ensures handled == mid.rows.Keys ==> t.rows == GcTable(s.rows, b)
  {
  }

  lemma CollectedIsStep(
    s: State, mid: State, t: State, b: Block, handled: set<Reference>, end: GcEnd, announced: seq<Reference>)
    requires mid == s.(rows := PartlyMarked(s.rows, s.rows.Keys, b))
    requires CollectProgress(mid, t, b, handled, end, announced)
    requires end == Completed ==> t.rows == PartlyCollected(mid.rows, mid.rows.Keys, b)
    ensures GcStep(s, t, b, end, announced)
  {
    CollectedAfterMarks(s, mid, b);
    DroppedAreDeactivated(s, mid, t, b, handled);
    RowsAfterPasses(s, mid, t, b, handled);
    if end == Completed {
      RowsAfterPasses(s, mid, t, b, mid.rows.Keys);
    }
    assert s.pinned == mid.pinned;
  }

  /** The pin collector, called with every new block. `replies(i)` is the reply to its i-th
      call; a run in which nothing throws completes. */
  method CollectPins(s: Service, b: Block, replies: nat -> Reply) returns (end: GcEnd, ghost announced: seq<Reference>)
    modifies s`rows, s`notices, s.node
    ensures end != Completed ==> SomeFails(replies)
    ensures GcStep(old(s.View()), s.View(), b, end, announced)
  {
    ghost var before := s.View();
    var calls;
    ghost var handled;
    end, calls, handled := MarkExpired(s, b, replies);
    announced := [];
    if end != Completed {
      MarkedIsStep(before, b, handled, end);
      return;
    }
    ghost var mid := s.View();
    end, announced, handled := CollectExpired(s, b, replies, calls);
    CollectedIsStep(before, mid, s.View(), b, handled, end, announced);
  }

  // ----- Recovery -----

  lemma GcRowAgain(a: Agreement, m: Moment)
    requires m.marking <= m.collecting
    ensures GcRow(MarkRow(a, m), m) == GcRow(a, m)
    ensures GcRow(GcRow(a, m), m) == GcRow(a, m)
    ensures Collected(MarkRow(a, m), m) == Collected(a, m)
    ensures !Collected(GcRow(a, m), m)
    ensures Collected(a, m) <==> a.isActive && !GcRow(a, m).isActive
    ensures MarkRow(a, m).isActive == a.isActive
    ensures GcRow(a, m).dataReference == a.dataReference && GcRow(a, m).account == a.account
    ensures !a.isActive ==> GcRow(a, m) == a
  {
    if a.Funded(m.collecting) {
      FundedEarlier(a, m.marking, m.collecting);
    }
  }

  lemma CollectedLeft(s: State, t: State, b: Block, end: GcEnd, announced: seq<Reference>)
    requires GcStep(s, t, b, end, announced) && b.Timely()
    ensures GcTable(t.rows, b) == GcTable(s.rows, b)
    ensures CollectedRefs(t.rows, b) == CollectedRefs(s.rows, b) - Deactivated(s.rows, t.rows)
    ensures Deactivated(s.rows, t.rows) <= CollectedRefs(s.rows, b)
    ensures forall refs :: Hashes(t.rows, refs) == Hashes(s.rows, refs)
  {
    forall r | r in s.rows
      ensures GcRow(t.rows[r], b.At(r)) == GcRow(s.rows[r], b.At(r))
      ensures r in CollectedRefs(t.rows, b) <==> r in CollectedRefs(s.rows, b) - Deactivated(s.rows, t.rows)
      ensures r in Deactivated(s.rows, t.rows) ==> r in CollectedRefs(s.rows, b)
      ensures t.rows[r].dataReference == s.rows[r].dataReference
    {
      GcRowAgain(s.rows[r], b.At(r));
    }
    forall refs
      ensures Hashes(t.rows, refs) == Hashes(s.rows, refs)
    {
      HashesIgnoreMarks(t.rows, s.rows, refs);
    }
  }

  lemma HashesUnion(rows: Table, refs: set<Reference>, part: set<Reference>)
    requires part <= refs
    ensures Hashes(rows, refs) == Hashes(rows, part) + Hashes(rows, refs - part)
  {
  }

  /** However a run ended, what a complete run would make of its result is what a complete
      run would have made of the start, even when agreements share a hash. */
  lemma AbortKeepsResult(s: State, t: State, b: Block, end: GcEnd, announced: seq<Reference>)
    requires GcStep(s, t, b, end, announced) && b.Timely()
    ensures GcTable(t.rows, b) == GcTable(s.rows, b)
    ensures GcPins(t, b) == GcPins(s, b)
  {
    var all, gone := CollectedRefs(s.rows, b), Deactivated(s.rows, t.rows);
    CollectedLeft(s, t, b, end, announced);
    HashesUnion(s.rows, all, gone);
  }

  lemma CompletedResult(s: State, t: State, b: Block, announced: seq<Reference>)
    requires GcStep(s, t, b, Completed, announced) && b.Timely()
    ensures t.rows == GcTable(s.rows, b) && t.pinned == GcPins(s, b)
    ensures Deactivated(s.rows, t.rows) == CollectedRefs(s.rows, b)
  {
  }

  /** A run record: where it started, where it stopped, how, and what it announced. */
  datatype Attempt = Attempt(after: State, end: GcEnd, announced: seq<Reference>)

  ghost predicate Attempts(s: State, b: Block, attempts: seq<Attempt>) {
    attempts != [] ==>
      var last := attempts[|attempts| - 1];
      var before := attempts[..|attempts| - 1];
      && Attempts(s, b, before)
      && GcStep(if before == [] then s else before[|before| - 1].after, last.after, b, last.end, last.announced)
  }

  /** Any number of runs aborted anywhere, then one that completes, all at the same block and
      looking at each row at the same times, leave the table and the pins of one uninterrupted run. */
  lemma {:induction false} CrashRecovery(s: State, b: Block, attempts: seq<Attempt>)
    requires attempts != [] && Attempts(s, b, attempts) && b.Timely()
    ensures var last := attempts[|attempts| - 1];
            && GcTable(last.after.rows, b) == GcTable(s.rows, b)
            && GcPins(last.after, b) == GcPins(s, b)
            && (last.end == Completed ==>
                  forall t, announced :: GcStep(s, t, b, Completed, announced) ==>
                    last.after.rows == t.rows && last.after.pinned == t.pinned)
  {
    var last, before := attempts[|attempts| - 1], attempts[..|attempts| - 1];
    var start := if before == [] then s else before[|before| - 1].after;
    if before != [] {
      CrashRecovery(s, b, before);
    }
    AbortKeepsResult(start, last.after, b, last.end, last.announced);
    if last.end == Completed {
      CompletedResult(start, last.after, b, last.announced);
      forall t, announced | GcStep(s, t, b, Completed, announced)
        ensures last.after.rows == t.rows && last.after.pinned == t.pinned
      {
        CompletedResult(s, t, b, announced);
      }
    }
  }

  // ----- A complete run -----

  /** What holds of a row after a complete run. */
  predicate Settled(a: Agreement, m: Moment) {
    a.isActive ==>
      match a.expiredAtBlockNumber
      case None => a.Funded(m.marking)
      case Some(marked) => marked > m.number - m.confirmations
  }

  lemma SettledStays(a: Agreement, m: Moment)
    requires m.marking <= m.collecting
    ensures Settled(GcRow(a, m), m)
    ensures Settled(a, m) ==> GcRow(a, m) == a
  {
    if a.Funded(m.collecting) {
      FundedEarlier(a, m.marking, m.collecting);
    }
  }

  lemma NothingToEnumerate(found: seq<Reference>)
    ensures Enumerates(found, {}) ==> found == []
  {
    if found != [] {
      assert found[0] in found;
    }
  }

  /** After a complete run every active row is funded and unmarked, or marked too recently;
      balances and inactive rows are untouched; and a second complete run at the same block
      and time changes nothing and announces nothing. */
  lemma CompleteRunSettles(s: State, t: State, b: Block, announced: seq<Reference>)
    requires GcStep(s, t, b, Completed, announced) && b.Timely()
    ensures forall r :: r in t.rows ==> Settled(t.rows[r], b.At(r))
    ensures forall r :: r in s.rows ==>
              && t.rows[r].account == s.rows[r].account
              && t.rows[r].dataReference == s.rows[r].dataReference
              && (!s.rows[r].isActive ==> t.rows[r] == s.rows[r])
    ensures forall u, more :: GcStep(t, u, b, Completed, more) ==> u == t && more == []
  {
    forall r | r in s.rows
      ensures Settled(t.rows[r], b.At(r))
      ensures t.rows[r].account == s.rows[r].account && t.rows[r].dataReference == s.rows[r].dataReference
      ensures !s.rows[r].isActive ==> t.rows[r] == s.rows[r]
      ensures GcRow(t.rows[r], b.At(r)) == t.rows[r]
    {
      SettledStays(s.rows[r], b.At(r));
      GcRowAgain(s.rows[r], b.At(r));
    }
    forall u, more | GcStep(t, u, b, Completed, more)
      ensures u == t && more == []
    {
      assert u.rows == t.rows;
      assert Deactivated(t.rows, u.rows) == {};
      NothingToEnumerate(more);
      assert u.pinned == t.pinned;
    }
  }

  // ----- In the columns themselves -----

  /** What a complete run makes of one row, with the agreement's balance at the two looks at it:
      an inactive row stays; an unmarked one is marked with the block when it has no funds, and
      at once deactivated when no confirmations are asked for; a mark that is not yet
      `confirmations` blocks old stays; an older one is cleared with funds and the row
      deactivated without. */
  lemma RowInColumns(a: Agreement, m: Moment)
    requires m.marking <= m.collecting
    ensures var early := a.account.HasSufficientFunds(m.marking, DECIMAL_PLACES);
            var late := a.account.HasSufficientFunds(m.collecting, DECIMAL_PLACES);
            GcRow(a, m) ==
              if !a.isActive then a
              else match a.expiredAtBlockNumber
                case None =>
                  if early then a
                  else a.(expiredAtBlockNumber := Some(m.number), isActive := m.confirmations > 0)
                case Some(marked) =>
                  if marked + m.confirmations > m.number then a
                  else if late then a.(expiredAtBlockNumber := None)
                  else a.(isActive := false)
  {
    if a.Funded(m.collecting) {
      FundedEarlier(a, m.marking, m.collecting);
    }
  }

  /** A complete run: every row as above; a hash is unpinned exactly when an agreement about it
      is deactivated; and exactly the deactivated agreements are announced as expired, each once. */
  lemma CompleteRunInColumns(s: State, t: State, b: Block, announced: seq<Reference>)
    requires GcStep(s, t, b, Completed, announced) && b.Timely()
    ensures t.rows.Keys == s.rows.Keys && forall r :: r in s.rows ==> t.rows[r] == GcRow(s.rows[r], b.At(r))
    ensures forall h :: h in t.pinned <==>
              h in s.pinned &&
              forall r :: r in s.rows && s.rows[r].isActive && s.rows[r].dataReference == h ==> t.rows[r].isActive
    ensures |t.notices| == |s.notices| + |announced| && t.notices[..|s.notices|] == s.notices
    ensures forall i :: 0 <= i < |announced| ==> t.notices[|s.notices| + i] == Notice(IAgreementExpired, announced[i])
    ensures forall r :: r in announced <==> r in s.rows && s.rows[r].isActive && !t.rows[r].isActive
    ensures forall i, j :: 0 <= i < j < |announced| ==> announced[i] != announced[j]
  {
    var gone := Deactivated(s.rows, t.rows);
    forall h
      ensures h in Hashes(s.rows, gone) <==> exists r :: r in gone && s.rows[r].dataReference == h
    {
    }
  }
}

/** The pins under the interleaving of handlers and collector runs. To the steps on the rows
    this adds the calls to the IPFS node between the awaits: those of the pin job that a
    creation's handler runs, the unpin of a stop, and the unpin of a row being collected,
    which comes before the save that deactivates it. */
module InterleavedPins {
  import opened Outcomes
  import opened PinJobs
  import opened Agreements
  import Lifecycle
  import Rows = Interleaving

  /** What the handler is at once its row is saved; `added` says that of the calls of its pin
      job that took effect the last one added the pin. */
  datatype After =
    | Resting
    | PinningRow(reference: Reference, added: bool)
    | UnpinningRow(reference: Reference)

  /** `dropping` are the collector runs that have unpinned the row they are at and not saved it
      yet, with the clock by which they decided. */
  datatype Pins = Pins(
    shared: Rows.Shared,
    after: After,
    dropping: map<nat, int>,
    pinned: set<string>,
    jobs: map<Reference, Outcome>)

  const START := Pins(Rows.START, Resting, map[], {}, map[])

  datatype Action =
    | OnRows(action: Rows.Action)
    | AddPin
    | RemovePin
    | EndJob(outcome: Outcome)
    | UnpinStopped(reply: Reply)
    | UnpinExpired(run: nat, now: int, reply: Reply)

  /** What a step on the rows does to the rest. After its save a creation goes on to its pin job,
      unless its broadcast fails; a run that unpinned a row announces and saves it. */
  ghost predicate Accompanies(s: Pins, a: Rows.Action, t: Pins) {
    t.pinned == s.pinned && t.jobs == s.jobs &&
    match a
    case Take(_) => s.after.Resting? && t.after == s.after && t.dropping == s.dropping
    case Save =>
      t.dropping == s.dropping && !s.shared.handler.Idle? &&
      var e := s.shared.handler.event;
      t.after == Resting
      || (e.NewAgreement? && t.after == PinningRow(e.reference, false))
      || (e.AgreementStopped? && t.after == UnpinningRow(e.reference))
    case CollectNext(g, now) =>
      t.after == s.after && g in s.shared.runs && Rows.AtRow(s.shared.runs[g]) &&
      if s.shared.runs[g].pass.todo[0].snapshot.Funded(now) then g !in s.dropping && t.dropping == s.dropping
      else g in s.dropping && s.dropping[g] == now && t.dropping == s.dropping - {g}
    case Abort(g) => g !in s.dropping && t.after == s.after && t.dropping == s.dropping
    case _ => t.after == s.after && t.dropping == s.dropping
  }

  function Remove(s: Pins, hash: string): Pins {
    s.(pinned := s.pinned - {hash})
  }

  /** A pin job returns normally only if its last attempt added the pin; an unpin that fails does
      so without effect, and then the run ends. */
  ghost predicate Next(offerId: string, s: Pins, a: Action, t: Pins) {
    match a
    case OnRows(step) => Rows.Next(offerId, s.shared, step, t.shared) && Accompanies(s, step, t)
    case AddPin =>
      s.after.PinningRow? && s.after.reference in s.shared.rows &&
      t == s.(pinned := s.pinned + {s.shared.rows[s.after.reference].dataReference},
              after := s.after.(added := true))
    case RemovePin =>
      s.after.PinningRow? && s.after.reference in s.shared.rows &&
      t == Remove(s, s.shared.rows[s.after.reference].dataReference).(after := s.after.(added := false))
    case EndJob(outcome) =>
      s.after.PinningRow? && (outcome.Done? ==> s.after.added) &&
      t == s.(jobs := s.jobs[s.after.reference := outcome], after := Resting)
    case UnpinStopped(reply) =>
      s.after.UnpinningRow? && s.after.reference in s.shared.rows &&
      t == s.(pinned := UnpinPins(s.pinned, s.shared.rows[s.after.reference].dataReference, reply), after := Resting)
    case UnpinExpired(g, now, reply) =>
      g in s.shared.runs && Rows.AtRow(s.shared.runs[g]) && g !in s.dropping && !reply.ReplyLost? &&
      var snapshot := s.shared.runs[g].pass.todo[0].snapshot;
      !snapshot.Funded(now) &&
      t == if reply.Refused? then s.(shared := s.shared.(runs := s.shared.runs - {g}))
           else Remove(s, snapshot.dataReference).(dropping := s.dropping[g := now])
  }

  ghost predicate IsRun(offerId: string, actions: seq<Action>, states: seq<Pins>) {
    && |states| == |actions| + 1
    && states[0] == START
    && forall i :: 0 <= i < |actions| ==> Next(offerId, states[i], actions[i], states[i + 1])
  }

  // ----- The invariant -----

  /** The reference of an agreement is a hash over its data, here without collisions. */
  ghost predicate Identifies(dataOf: Reference -> string) {
    forall r, q :: dataOf(r) == dataOf(q) ==> r == q
  }

  /** The creations that come in carry the data of their reference. */
  ghost predicate CarriesData(dataOf: Reference -> string, a: Action) {
    a.OnRows? && a.action.Take? && a.action.event.NewAgreement? ==>
      a.action.event.dataReference == dataOf(a.action.event.reference)
  }

  ghost predicate RowsKept(dataOf: Reference -> string, s: Rows.Shared) {
    && (forall r :: r in s.rows ==> s.rows[r].dataReference == dataOf(r))
    && (s.handler.Loading? && s.handler.event.NewAgreement? ==>
          s.handler.event.dataReference == dataOf(s.handler.event.reference))
  }

  ghost predicate LoadedKept(dataOf: Reference -> string, s: Rows.Shared) {
    forall g, l :: g in s.runs && s.runs[g].Looping? && l in s.runs[g].pass.todo ==>
      l.reference in s.rows && l.snapshot.dataReference == dataOf(l.reference)
  }

  /** Rows, events under way and loaded rows are about the data of their reference. */
  ghost predicate DataKept(dataOf: Reference -> string, s: Rows.Shared) {
    RowsKept(dataOf, s) && LoadedKept(dataOf, s)
  }

  /** What is under way has its row. */
  ghost predicate Ordered(s: Pins) {
    && s.jobs.Keys <= s.shared.rows.Keys
    && (!s.after.Resting? ==> s.shared.handler.Idle? && s.after.reference in s.shared.rows)
    && (s.after.UnpinningRow? ==> !s.shared.rows[s.after.reference].isActive)
    && (forall g :: g in s.dropping ==> g in s.shared.runs && Rows.AtRow(s.shared.runs[g]))
  }

  predicate Drops(s: Pins, g: nat, r: Reference) {
    g in s.dropping && g in s.shared.runs && Rows.AtRow(s.shared.runs[g])
    && s.shared.runs[g].pass.todo[0].reference == r
  }

  /** Some run has unpinned r and is about to deactivate it. */
  ghost predicate BeingDropped(s: Pins, r: Reference) {
    exists g: nat :: Drops(s, g, r)
  }

  /** r has its pin, or is inactive or about to be. */
  ghost predicate Accounted(dataOf: Reference -> string, s: Pins, r: Reference)
    requires r in s.shared.rows
  {
    s.shared.rows[r].isActive ==> dataOf(r) in s.pinned || BeingDropped(s, r)
  }

  /** The handler is running a pin job for r. */
  predicate UnderJob(s: Pins, r: Reference) {
    s.after.PinningRow? && s.after.reference == r
  }

  /** An agreement whose latest pin job worked is accounted for, except while the handler runs
      another job for it; and so is that one from when the job has added the pin. */
  ghost predicate Covered(dataOf: Reference -> string, s: Pins) {
    && (forall r :: r in s.shared.rows && r in s.jobs && s.jobs[r].Done? && !UnderJob(s, r) ==> Accounted(dataOf, s, r))
    && (forall r :: r in s.shared.rows && UnderJob(s, r) && s.after.added ==> Accounted(dataOf, s, r))
  }

  ghost predicate Invariant(offerId: string, dataOf: Reference -> string, s: Pins) {
    Rows.Consistent(offerId, s.shared) && DataKept(dataOf, s.shared) && Ordered(s) && Covered(dataOf, s)
  }

  // ----- Steps on the rows -----

  lemma RowsStayKept(dataOf: Reference -> string, offerId: string, s: Rows.Shared, a: Rows.Action, t: Rows.Shared)
    requires Rows.Next(offerId, s, a, t) && RowsKept(dataOf, s) && CarriesData(dataOf, OnRows(a))
    ensures RowsKept(dataOf, t) && s.rows.Keys <= t.rows.Keys
  {
  }

  lemma LoadedStayKept(dataOf: Reference -> string, offerId: string, s: Rows.Shared, a: Rows.Action, t: Rows.Shared)
    requires Rows.Next(offerId, s, a, t) && DataKept(dataOf, s) && s.rows.Keys <= t.rows.Keys
    ensures LoadedKept(dataOf, t)
  {
  }

  lemma DataStaysKept(dataOf: Reference -> string, offerId: string, s: Rows.Shared, a: Rows.Action, t: Rows.Shared)
    requires Rows.Next(offerId, s, a, t) && DataKept(dataOf, s) && CarriesData(dataOf, OnRows(a))
    ensures DataKept(dataOf, t)
  {
    RowsStayKept(dataOf, offerId, s, a, t);
    LoadedStayKept(dataOf, offerId, s, a, t);
  }

  lemma SavedRowsStay(offerId: string, s: Rows.Shared, t: Rows.Shared)
    requires Rows.Next(offerId, s, Rows.Save, t) && Rows.Consistent(offerId, s)
    ensures s.rows.Keys <= t.rows.Keys
    ensures forall r :: r in s.rows && t.rows[r].isActive ==> s.rows[r].isActive
    ensures s.handler.event.AgreementStopped? ==> !t.rows[s.handler.event.reference].isActive
  {
    if s.handler.Saving? {
      Rows.SaveIsWrite(s.rows, s.handler.event, s.handler.snapshot);
    }
  }

  /** Rows stay, and none becomes active again. */
  lemma RowsStay(offerId: string, s: Rows.Shared, a: Rows.Action, t: Rows.Shared)
    requires Rows.Next(offerId, s, a, t) && Rows.Consistent(offerId, s)
    ensures s.rows.Keys <= t.rows.Keys
    ensures forall r :: r in s.rows && t.rows[r].isActive ==> s.rows[r].isActive
    ensures a.Save? && s.handler.event.AgreementStopped? ==> !t.rows[s.handler.event.reference].isActive
  {
    match a {
      case Save => SavedRowsStay(offerId, s, t);
      case MarkNext(g, now) =>
        Rows.CollectorSaves(s.rows, s.runs[g].pass.todo[0], s.runs[g].number, now);
      case CollectNext(g, now) =>
        Rows.CollectorSaves(s.rows, s.runs[g].pass.todo[0], s.runs[g].number, now);
      case _ =>
    }
  }

  lemma StaysOrdered(offerId: string, s: Pins, a: Rows.Action, t: Pins)
    requires Rows.Next(offerId, s.shared, a, t.shared) && Accompanies(s, a, t)
    requires Rows.Consistent(offerId, s.shared) && Ordered(s)
    ensures Ordered(t)
  {
    RowsStay(offerId, s.shared, a, t.shared);
  }

  /** A run that is dropping a row goes on doing so, until it has deactivated it. */
  lemma DropsOn(offerId: string, s: Pins, a: Rows.Action, t: Pins, g: nat, r: Reference)
    requires Rows.Next(offerId, s.shared, a, t.shared) && Accompanies(s, a, t)
    requires Drops(s, g, r) && r in s.shared.rows
    ensures Drops(t, g, r) || (r in t.shared.rows && !t.shared.rows[r].isActive)
  {
  }

  lemma AccountedOn(dataOf: Reference -> string, offerId: string, s: Pins, a: Rows.Action, t: Pins, r: Reference)
    requires Rows.Next(offerId, s.shared, a, t.shared) && Accompanies(s, a, t)
    requires Rows.Consistent(offerId, s.shared) && r in s.shared.rows && Accounted(dataOf, s, r)
    ensures r in t.shared.rows && Accounted(dataOf, t, r)
  {
    RowsStay(offerId, s.shared, a, t.shared);
    if t.shared.rows[r].isActive && BeingDropped(s, r) {
      var g: nat :| Drops(s, g, r);
      DropsOn(offerId, s, a, t, g, r);
    }
  }

  lemma StaysCovered(dataOf: Reference -> string, offerId: string, s: Pins, a: Rows.Action, t: Pins)
    requires Rows.Next(offerId, s.shared, a, t.shared) && Accompanies(s, a, t)
    requires Rows.Consistent(offerId, s.shared) && Ordered(s) && Covered(dataOf, s)
    ensures Covered(dataOf, t)
  {
    forall r | r in s.shared.rows && Accounted(dataOf, s, r)
      ensures r in t.shared.rows && Accounted(dataOf, t, r)
    {
      AccountedOn(dataOf, offerId, s, a, t, r);
    }
    RowsStay(offerId, s.shared, a, t.shared);
  }

  // ----- Calls to the node -----

  /** What changes the pin of one agreement, and who drops what only for it, concerns that
      agreement alone. */
  lemma OthersAccounted(dataOf: Reference -> string, s: Pins, t: Pins, q: Reference)
    requires Identifies(dataOf) && t.shared.rows == s.shared.rows && s.pinned - {dataOf(q)} <= t.pinned
    requires forall g, r :: Drops(s, g, r) ==> Drops(t, g, r)
    ensures forall r :: r in s.shared.rows && r != q && Accounted(dataOf, s, r) ==> Accounted(dataOf, t, r)
    ensures q in s.shared.rows && s.pinned <= t.pinned && Accounted(dataOf, s, q) ==> Accounted(dataOf, t, q)
  {
    forall r | BeingDropped(s, r)
      ensures BeingDropped(t, r)
    {
      var g: nat :| Drops(s, g, r);
      assert Drops(t, g, r);
    }
  }

  lemma JobCallCovers(offerId: string, dataOf: Reference -> string, s: Pins, a: Action, t: Pins)
    requires Identifies(dataOf) && RowsKept(dataOf, s.shared) && Ordered(s) && Covered(dataOf, s)
    requires Next(offerId, s, a, t) && (a.AddPin? || a.RemovePin? || a.EndJob?)
    ensures Covered(dataOf, t)
  {
    OthersAccounted(dataOf, s, t, s.after.reference);
  }

  lemma StopUnpinCovers(offerId: string, dataOf: Reference -> string, s: Pins, reply: Reply, t: Pins)
    requires Identifies(dataOf) && RowsKept(dataOf, s.shared) && Ordered(s) && Covered(dataOf, s)
    requires Next(offerId, s, UnpinStopped(reply), t)
    ensures Covered(dataOf, t)
  {
    OthersAccounted(dataOf, s, t, s.after.reference);
  }

  lemma RefusedUnpinCovers(dataOf: Reference -> string, s: Pins, g: nat, t: Pins)
    requires Identifies(dataOf) && Ordered(s) && Covered(dataOf, s) && g !in s.dropping
    requires t == s.(shared := s.shared.(runs := s.shared.runs - {g}))
    ensures Ordered(t) && Covered(dataOf, t)
  {
    forall r | r in s.shared.rows
      ensures Accounted(dataOf, s, r) ==> Accounted(dataOf, t, r)
    {
      OthersAccounted(dataOf, s, t, r);
    }
  }

  lemma UnpinCovers(offerId: string, dataOf: Reference -> string, s: Pins, g: nat, now: int, reply: Reply, t: Pins)
    requires Identifies(dataOf) && DataKept(dataOf, s.shared) && Ordered(s) && Covered(dataOf, s)
    requires Next(offerId, s, UnpinExpired(g, now, reply), t) && !reply.Refused?
    ensures t.shared == s.shared && Ordered(t) && Covered(dataOf, t)
  {
    var l := s.shared.runs[g].pass.todo[0];
    assert l in s.shared.runs[g].pass.todo;
    assert Drops(t, g, l.reference);
    OthersAccounted(dataOf, s, t, l.reference);
  }

  lemma AbortConsistent(offerId: string, dataOf: Reference -> string, s: Rows.Shared, g: nat)
    requires Rows.Consistent(offerId, s) && DataKept(dataOf, s)
    ensures var t := s.(runs := s.runs - {g}); Rows.Consistent(offerId, t) && DataKept(dataOf, t)
  {
  }

  lemma StepKeepsInvariant(offerId: string, dataOf: Reference -> string, s: Pins, a: Action, t: Pins)
    requires Identifies(dataOf) && CarriesData(dataOf, a) && Invariant(offerId, dataOf, s) && Next(offerId, s, a, t)
    ensures Invariant(offerId, dataOf, t)
  {
    match a {
      case OnRows(step) =>
        Rows.StepConsistent(offerId, s.shared, step, t.shared);
        DataStaysKept(dataOf, offerId, s.shared, step, t.shared);
        StaysOrdered(offerId, s, step, t);
        StaysCovered(dataOf, offerId, s, step, t);
      case UnpinExpired(g, now, reply) =>
        if reply.Refused? {
          AbortConsistent(offerId, dataOf, s.shared, g);
          RefusedUnpinCovers(dataOf, s, g, t);
        } else {
          UnpinCovers(offerId, dataOf, s, g, now, reply, t);
        }
      case UnpinStopped(reply) =>
        StopUnpinCovers(offerId, dataOf, s, reply, t);
      case _ =>
        JobCallCovers(offerId, dataOf, s, a, t);
    }
  }

  /** Under every interleaving of handlers, pin jobs and collector runs, when no handler is at a
      pin or an unpin and no run is between unpinning and deactivating a row, every active
      agreement whose latest pin job worked is pinned. */
  lemma {:induction false} BackedWhenQuiet(
    offerId: string, dataOf: Reference -> string, actions: seq<Action>, states: seq<Pins>, i: nat)
    requires Identifies(dataOf) && IsRun(offerId, actions, states) && i <= |actions|
    requires forall k :: 0 <= k < i ==> CarriesData(dataOf, actions[k])
    ensures Invariant(offerId, dataOf, states[i])
    ensures var s := states[i];
            s.after.Resting? && s.dropping == map[] ==>
              Lifecycle.Backed(State(s.shared.rows, s.pinned, [], s.jobs))
    decreases i
  {
    if i > 0 {
      BackedWhenQuiet(offerId, dataOf, actions, states, i - 1);
      StepKeepsInvariant(offerId, dataOf, states[i - 1], actions[i - 1], states[i]);
    }
    var s := states[i];
    if s.after.Resting? && s.dropping == map[] {
      forall r | r in s.shared.rows && r in s.jobs && s.jobs[r].Done? && s.shared.rows[r].isActive
        ensures s.shared.rows[r].dataReference in s.pinned
      {
        assert Accounted(dataOf, s, r);
      }
    }
  }

  // ----- Steps that nothing interrupts -----

  /** A row collected without interruption is unpinned and deactivated, and nothing else changes. */
  lemma CollectedInSteps(offerId: string, s: Pins, mid: Pins, t: Pins, g: nat, now: int)
    requires Next(offerId, s, UnpinExpired(g, now, Worked), mid)
    requires Next(offerId, mid, OnRows(Rows.CollectNext(g, now)), t)
    ensures var l := s.shared.runs[g].pass.todo[0];
            && t.pinned == s.pinned - {l.snapshot.dataReference} && t.jobs == s.jobs
            && t.dropping == s.dropping
            && t.shared.rows == if l.reference !in s.shared.rows then s.shared.rows
                 else s.shared.rows[l.reference := s.shared.rows[l.reference].(isActive := false)]
  {
    assert mid.dropping - {g} == s.dropping;
  }

  /** A pin job that adds the pin and works, on the row just created. */
  lemma PinnedInSteps(offerId: string, s: Pins, mid: Pins, t: Pins)
    requires s.after.PinningRow? && s.after.reference in s.shared.rows
    requires Next(offerId, s, AddPin, mid) && Next(offerId, mid, EndJob(Done), t)
    ensures t == s.(pinned := s.pinned + {s.shared.rows[s.after.reference].dataReference},
                    jobs := s.jobs[s.after.reference := Done], after := Resting)
  {
  }

  /** A stop whose unpin takes effect. */
  lemma StoppedInSteps(offerId: string, s: Pins, t: Pins, reply: Reply)
    requires Next(offerId, s, UnpinStopped(reply), t) && reply != Refused
    ensures t == s.(pinned := s.pinned - {s.shared.rows[s.after.reference].dataReference}, after := Resting)
  {
  }
}

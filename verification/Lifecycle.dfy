/** Whole runs of the blockchain strategy with its steps taken one after the other: events,
    live ones with a manager and replayed ones without, garbage collection (complete or
    aborted) on new blocks, and pin jobs for rows already stored. A start that precaches is a
    run of replayed events and then pin jobs. */
module Lifecycle {
  import opened Wrappers
  import opened Billing
  import opened Outcomes
  import opened PinJobs
  import opened Jobs
  import opened Pinning
  import opened Agreements
  import opened AgreementEvents
  import opened BlockchainStream
  import opened Gc

  datatype Step =
    | OnEvent(event: Event, manager: bool, world: World)
    | OnBlock(block: Block, end: GcEnd, announced: seq<Reference>)
    | OnRepin(reference: Reference, world: World)

  datatype Setup = Setup(offerId: string, retries: int)

  ghost predicate Next(c: Setup, s: State, step: Step, t: State) {
    match step
    case OnEvent(e, manager, w) => t == Process(s, c.offerId, e, manager, c.retries, w)
    case OnBlock(b, end, announced) => b.Timely() && GcStep(s, t, b, end, announced)
    case OnRepin(r, w) => t == if r in s.rows then PinFor(s, r, c.retries, w).state else s
  }

  ghost predicate Follows(c: Setup, steps: seq<Step>, states: seq<State>) {
    && |states| == |steps| + 1
    && forall i :: 0 <= i < |steps| ==> Next(c, states[i], steps[i], states[i + 1])
  }

  /** A run from the very first start; the state outlives restarts. */
  ghost predicate IsRun(c: Setup, steps: seq<Step>, states: seq<State>) {
    Follows(c, steps, states) && states[0] == EMPTY_STATE
  }

  // ----- Starting with a replay -----

  /** The steps of a start that precaches: the past events without a manager, then these pin
      jobs. */
  function PrecacheSteps(
    events: seq<Event>, tried: seq<Reference>, replayed: nat -> World, worlds: nat -> World): seq<Step>
  {
    seq(|events|, i requires 0 <= i < |events| => OnEvent(events[i], false, replayed(i)))
    + seq(|tried|, i requires 0 <= i < |tried| => OnRepin(tried[i], worlds(i)))
  }

  /** What the replay leaves of state s. */
  function Replayed(c: Setup, s: State, events: seq<Event>, replayed: nat -> World): State {
    s.(rows := TableAfter(s.rows, c.offerId, Written(events, replayed)))
  }

  /** The state after the first i of those steps. */
  function PrecacheState(
    c: Setup, s: State, events: seq<Event>, tried: seq<Reference>, replayed: nat -> World, worlds: nat -> World, i: nat)
    : State
    requires i <= |events| + |tried|
    requires forall k :: 0 <= k < |tried| ==> tried[k] in Replayed(c, s, events, replayed).rows
  {
    if i <= |events| then Live(s, c.offerId, events[..i], false, c.retries, replayed)
    else PinEach(Replayed(c, s, events, replayed), tried[..i - |events|], c.retries, worlds)
  }

  lemma ReplayNext(c: Setup, s: State, events: seq<Event>, replayed: nat -> World, i: nat)
    requires i < |events|
    ensures Next(c, Live(s, c.offerId, events[..i], false, c.retries, replayed), OnEvent(events[i], false, replayed(i)),
                 Live(s, c.offerId, events[..i + 1], false, c.retries, replayed))
  {
    assert events[..i + 1][..i] == events[..i];
  }

  lemma RepinState(
    c: Setup, s: State, events: seq<Event>, tried: seq<Reference>, replayed: nat -> World, worlds: nat -> World, j: nat)
    requires j <= |tried|
    requires forall k :: 0 <= k < |tried| ==> tried[k] in Replayed(c, s, events, replayed).rows
    ensures PrecacheState(c, s, events, tried, replayed, worlds, |events| + j)
         == PinEach(Replayed(c, s, events, replayed), tried[..j], c.retries, worlds)
  {
    if j == 0 {
      assert events[..|events|] == events;
      ReplayEqualsLive(s, c.offerId, events, false, c.retries, replayed);
    }
  }

  lemma RepinNext(c: Setup, s: State, tried: seq<Reference>, worlds: nat -> World, j: nat)
    requires j < |tried| && forall k :: 0 <= k < |tried| ==> tried[k] in s.rows
    ensures Next(c, PinEach(s, tried[..j], c.retries, worlds), OnRepin(tried[j], worlds(j)),
                 PinEach(s, tried[..j + 1], c.retries, worlds))
  {
    assert tried[..j + 1] == tried[..j] + [tried[j]];
    PinOneMore(s, tried[..j], tried[j], c.retries, worlds);
  }

  lemma PrecacheNext(
    c: Setup, s: State, events: seq<Event>, tried: seq<Reference>, replayed: nat -> World, worlds: nat -> World, i: nat)
    requires i < |events| + |tried|
    requires forall k :: 0 <= k < |tried| ==> tried[k] in Replayed(c, s, events, replayed).rows
    ensures Next(c, PrecacheState(c, s, events, tried, replayed, worlds, i),
                 PrecacheSteps(events, tried, replayed, worlds)[i],
                 PrecacheState(c, s, events, tried, replayed, worlds, i + 1))
  {
    if i < |events| {
      ReplayNext(c, s, events, replayed, i);
    } else {
      RepinState(c, s, events, tried, replayed, worlds, i - |events|);
      RepinState(c, s, events, tried, replayed, worlds, i + 1 - |events|);
      RepinNext(c, Replayed(c, s, events, replayed), tried, worlds, i - |events|);
    }
  }

  /** What precaching leaves of any stored state is reached by these steps, also when a pin job
      made it throw: the replay of the events, and then the jobs tried. */
  lemma PrecacheIsRun(
    c: Setup, s: State, events: seq<Event>, tried: seq<Reference>, replayed: nat -> World, worlds: nat -> World)
    returns (states: seq<State>)
    requires forall i :: 0 <= i < |tried| ==> tried[i] in Replayed(c, s, events, replayed).rows
    ensures Follows(c, PrecacheSteps(events, tried, replayed, worlds), states) && states[0] == s
    ensures states[|events| + |tried|] == PinEach(Replayed(c, s, events, replayed), tried, c.retries, worlds)
  {
    var n := |events| + |tried|;
    states := seq(n + 1, i requires 0 <= i <= n => PrecacheState(c, s, events, tried, replayed, worlds, i));
    forall i | 0 <= i < n
      ensures Next(c, states[i], PrecacheSteps(events, tried, replayed, worlds)[i], states[i + 1])
    {
      PrecacheNext(c, s, events, tried, replayed, worlds, i);
    }
    RepinState(c, s, events, tried, replayed, worlds, |tried|);
    assert tried[..|tried|] == tried;
  }

  // ----- Deactivation is never rash -----

  predicate IsCreation(c: Setup, step: Step, r: Reference) {
    step.OnEvent? && !step.world.writeBroken && OwnCreation(c.offerId, step.event, r)
  }

  /** Step j is a collector run that found r unmarked and unfunded and marked it at block m. */
  ghost predicate Marks(steps: seq<Step>, states: seq<State>, j: int, r: Reference, m: int)
    requires |states| == |steps| + 1
  {
    && 0 <= j < |steps|
    && steps[j].OnBlock? && steps[j].block.number == m
    && r in states[j].rows
    && Unmarked(states[j].rows[r])
    && !states[j].rows[r].Funded(steps[j].block.marking(r))
  }

  /** r was marked at step j and not created again before step i. */
  ghost predicate MarkedSince(c: Setup, steps: seq<Step>, states: seq<State>, j: int, i: int, r: Reference, m: int)
    requires |states| == |steps| + 1 && i <= |steps|
  {
    && j < i
    && Marks(steps, states, j, r, m)
    && forall k :: j <= k < i ==> !IsCreation(c, steps[k], r)
  }

  lemma EventKeepsMark(c: Setup, s: State, e: Event, manager: bool, w: World, r: Reference)
    requires var t := Process(s, c.offerId, e, manager, c.retries, w);
             r in t.rows && t.rows[r].expiredAtBlockNumber.Some?
    ensures var t := Process(s, c.offerId, e, manager, c.retries, w);
            && r in s.rows
            && s.rows[r].expiredAtBlockNumber == t.rows[r].expiredAtBlockNumber
            && (w.writeBroken || !OwnCreation(c.offerId, e, r))
  {
    ProcessedTable(s, c.offerId, e, manager, c.retries, w);
  }

  /** A mark was there before the step, which then is no creation, or the step set it. */
  lemma MarkBefore(c: Setup, s: State, step: Step, t: State, r: Reference)
    requires Next(c, s, step, t) && r in t.rows && t.rows[r].expiredAtBlockNumber.Some?
    ensures r in s.rows && !IsCreation(c, step, r)
    ensures s.rows[r].expiredAtBlockNumber == t.rows[r].expiredAtBlockNumber
         || (step.OnBlock? && step.block.number == t.rows[r].expiredAtBlockNumber.value
             && Unmarked(s.rows[r]) && !s.rows[r].Funded(step.block.marking(r)))
  {
    if step.OnEvent? {
      EventKeepsMark(c, s, step.event, step.manager, step.world, r);
    }
  }

  /** Every mark in a reachable table was set by an earlier collector run that found the row
      unfunded, and no creation has intervened. */
  lemma {:induction false} MarksHaveOrigins(c: Setup, steps: seq<Step>, states: seq<State>, i: nat, r: Reference)
    returns (j: int)
    requires IsRun(c, steps, states) && i <= |steps|
    requires r in states[i].rows && states[i].rows[r].expiredAtBlockNumber.Some?
    ensures MarkedSince(c, steps, states, j, i, r, states[i].rows[r].expiredAtBlockNumber.value)
    decreases i
  {
    assert i > 0;
    MarkBefore(c, states[i - 1], steps[i - 1], states[i], r);
    if states[i - 1].rows[r].expiredAtBlockNumber == states[i].rows[r].expiredAtBlockNumber {
      j := MarksHaveOrigins(c, steps, states, i - 1, r);
    } else {
      j := i - 1;
    }
  }

  /** When the collector deactivates r at step i, r carries a mark set by this or an earlier
      run at least `confirmations` blocks before; r was unfunded at both runs; and it was not
      created again in between. */
  lemma DeactivationIsConfirmed(c: Setup, steps: seq<Step>, states: seq<State>, i: nat, r: Reference)
    returns (j: int, m: int)
    requires IsRun(c, steps, states) && i < |steps| && steps[i].OnBlock?
    requires r in Deactivated(states[i].rows, states[i + 1].rows)
    ensures MarkedSince(c, steps, states, j, i + 1, r, m)
    ensures m + steps[i].block.confirmations <= steps[i].block.number
    ensures !states[i].rows[r].Funded(steps[i].block.collecting(r))
  {
    var moment := steps[i].block.At(r);
    var a := states[i].rows[r];
    assert Next(c, states[i], steps[i], states[i + 1]);
    GcRowAgain(a, moment);
    assert Collected(a, moment);
    m := MarkRow(a, moment).expiredAtBlockNumber.value;
    if a.expiredAtBlockNumber.Some? {
      j := MarksHaveOrigins(c, steps, states, i, r);
    } else {
      j := i;
    }
  }

  // ----- Active agreements stay pinned -----

  /** An active agreement whose latest pin job returned normally has its hash pinned. */
  predicate Backed(s: State) {
    forall r :: r in s.rows && s.rows[r].isActive && r in s.jobs && s.jobs[r].Done? ==>
      s.rows[r].dataReference in s.pinned
  }

  /** Broadcasts work, a collector's saves work and its unpins fail only without effect. A
      replayed creation, which pins nothing, must not give new data to an agreement that a pin
      job was run for; the reference is a hash over the data, and on a first start no job has
      been run yet. */
  predicate Undisturbed(s: State, step: Step) {
    match step
    case OnEvent(e, manager, w) =>
      if manager then !w.broadcastBroken
      else e.NewAgreement? && e.reference in s.rows && e.reference in s.jobs ==>
             e.dataReference == s.rows[e.reference].dataReference
    case OnBlock(_, end, _) => Tidy(end)
    case OnRepin(_, _) => true
  }

  predicate IsUndisturbed(steps: seq<Step>, states: seq<State>, from: nat, to: nat)
    requires to <= |steps| < |states|
  {
    forall k {:trigger Undisturbed(states[k], steps[k])} :: from <= k < to ==> Undisturbed(states[k], steps[k])
  }

  /** A pin job concerns one hash; what else is pinned stays. */
  lemma PinForBacks(s: State, r: Reference, retries: int, w: World)
    requires r in s.rows && retries >= 1 && NoSharedData(s.rows)
    requires Backed(s.(jobs := s.jobs - {r}))
    ensures Backed(PinFor(s, r, retries, w).state)
  {
    var row := s.rows[r];
    var t := PinFor(s, r, retries, w).state;
    var k := PinGuarantee(s.pinned, row.dataReference, row.account.size, w.tries, retries);
    forall q | q in t.rows && t.rows[q].isActive && q in t.jobs && t.jobs[q].Done?
      ensures t.rows[q].dataReference in t.pinned
    {
      if q != r {
        assert q in (s.jobs - {r});
        assert s.rows[q].dataReference in s.pinned - {row.dataReference};
      }
    }
  }

  /** Every job record belongs to a row. */
  predicate JobsHaveRows(s: State) {
    s.jobs.Keys <= s.rows.Keys
  }

  lemma CreationBacks(s: State, e: Event, retries: int, w: World)
    requires e.NewAgreement? && retries >= 1 && !w.broadcastBroken && Backed(s) && JobsHaveRows(s)
    requires var t := Handle(s, e, true, retries, w).state; NoSharedData(t.rows)
    ensures var t := Handle(s, e, true, retries, w).state; Backed(t) && JobsHaveRows(t)
  {
    if !w.writeBroken {
      var announced := Announce(s.(rows := Write(s.rows, e)), IAgreementNew, e.reference);
      PinForBacks(announced, e.reference, retries, w);
    }
  }

  lemma StopBacks(s: State, e: Event, retries: int, w: World)
    requires e.AgreementStopped? && e.reference in s.rows && !w.writeBroken
    requires NoSharedData(s.rows) && Backed(s) && JobsHaveRows(s)
    ensures var t := Handle(s, e, true, retries, w).state; Backed(t) && JobsHaveRows(t)
  {
    var t, r := Handle(s, e, true, retries, w).state, e.reference;
    forall q | q in s.rows && q != r
      ensures t.rows[q] == s.rows[q] && (s.rows[q].dataReference in s.pinned ==> s.rows[q].dataReference in t.pinned)
    {
      assert s.rows[q].dataReference != s.rows[r].dataReference;
    }
  }

  lemma FundsBack(s: State, e: Event, retries: int, w: World)
    requires e.AboutAgreement() && !e.AgreementStopped? && Backed(s) && JobsHaveRows(s)
    ensures var t := Handle(s, e, true, retries, w).state; Backed(t) && JobsHaveRows(t)
  {
  }

  lemma ReplayedBacks(c: Setup, s: State, e: Event, w: World)
    requires Undisturbed(s, OnEvent(e, false, w)) && Backed(s) && JobsHaveRows(s)
    ensures var t := Process(s, c.offerId, e, false, c.retries, w); Backed(t) && JobsHaveRows(t)
  {
    ProcessedTable(s, c.offerId, e, false, c.retries, w);
  }

  lemma EventBacks(c: Setup, s: State, e: Event, manager: bool, w: World)
    requires c.retries >= 1 && Undisturbed(s, OnEvent(e, manager, w)) && Backed(s) && JobsHaveRows(s)
    requires NoSharedData(s.rows) && NoSharedData(Process(s, c.offerId, e, manager, c.retries, w).rows)
    ensures Backed(Process(s, c.offerId, e, manager, c.retries, w))
    ensures JobsHaveRows(Process(s, c.offerId, e, manager, c.retries, w))
  {
    if !manager {
      ReplayedBacks(c, s, e, w);
    } else if Admitted(c.offerId, s.rows, e) {
      if e.NewAgreement? {
        CreationBacks(s, e, c.retries, w);
      } else if e.AboutAgreement() {
        if !e.AgreementStopped? {
          FundsBack(s, e, c.retries, w);
        } else if !w.writeBroken {
          StopBacks(s, e, c.retries, w);
        }
      }
    }
  }

  lemma BlockBacks(s: State, t: State, b: Block, end: GcEnd, announced: seq<Reference>)
    requires GcStep(s, t, b, end, announced) && b.Timely() && Tidy(end)
    requires NoSharedData(s.rows) && Backed(s) && JobsHaveRows(s)
    ensures Backed(t) && JobsHaveRows(t)
  {
    var gone := Deactivated(s.rows, t.rows);
    forall r | r in t.rows && t.rows[r].isActive && r in t.jobs && t.jobs[r].Done?
      ensures t.rows[r].dataReference in t.pinned
    {
      GcRowAgain(s.rows[r], b.At(r));
      assert s.rows[r].isActive && r !in gone;
      assert s.rows[r].dataReference !in Hashes(s.rows, gone);
    }
  }

  lemma StepBacks(c: Setup, s: State, step: Step, t: State)
    requires c.retries >= 1 && Next(c, s, step, t) && Undisturbed(s, step)
    requires NoSharedData(s.rows) && NoSharedData(t.rows) && Backed(s) && JobsHaveRows(s)
    ensures Backed(t) && JobsHaveRows(t)
  {
    match step {
      case OnEvent(e, manager, w) => EventBacks(c, s, e, manager, w);
      case OnBlock(b, end, announced) => BlockBacks(s, t, b, end, announced);
      case OnRepin(r, w) =>
        if r in s.rows {
          PinForBacks(s, r, c.retries, w);
        }
    }
  }

  /** From any state j in which the active agreements are backed, the empty one or what a start
      left, they are backed in every later state i: provided a try is configured, no two
      agreements are about the same data, broadcasts and the collector's saves do not fail, and
      its unpins fail only without effect (writes of events, queries and pin jobs may fail). */
  lemma {:induction false} ActiveStayPinned(c: Setup, steps: seq<Step>, states: seq<State>, j: nat, i: nat)
    requires Follows(c, steps, states) && j <= i <= |steps| && c.retries >= 1
    requires Backed(states[j]) && JobsHaveRows(states[j])
    requires forall k :: j <= k <= i ==> NoSharedData(states[k].rows)
    requires IsUndisturbed(steps, states, j, i)
    ensures Backed(states[i]) && JobsHaveRows(states[i])
    decreases i
  {
    if i > j {
      ActiveStayPinned(c, steps, states, j, i - 1);
      StepBacks(c, states[i - 1], steps[i - 1], states[i]);
    }
  }

  /** What precaching leaves when no job was run before and it returns normally is backed, even
      with shared data. */
  lemma PrecacheBacks(s: State, tried: seq<Reference>, retries: int, worlds: nat -> World)
    requires s.jobs == map[] && forall i :: 0 <= i < |tried| ==> tried[i] in s.rows
    requires ArePinned(PinEach(s, tried, retries, worlds), set r | r in tried)
    ensures Backed(PinEach(s, tried, retries, worlds)) && JobsHaveRows(PinEach(s, tried, retries, worlds))
  {
    forall r | r in PinEach(s, tried, retries, worlds).jobs
      ensures r in tried && r in s.rows
    {
      JobsOfTried(s, tried, retries, worlds, r);
    }
  }

  lemma {:induction false} StartUndisturbed(
    c: Setup, events: seq<Event>, tried: seq<Reference>, replayed: nat -> World, worlds: nat -> World,
    states: seq<State>, k: nat)
    requires Follows(c, PrecacheSteps(events, tried, replayed, worlds), states) && k < |events| + |tried|
    requires states[0].jobs == map[]
    ensures k < |events| ==> states[k].jobs == map[]
    ensures Undisturbed(states[k], PrecacheSteps(events, tried, replayed, worlds)[k])
  {
    if 0 < k < |events| {
      StartUndisturbed(c, events, tried, replayed, worlds, states, k - 1);
      var e, w := events[k - 1], replayed(k - 1);
      assert Next(c, states[k - 1], OnEvent(e, false, w), states[k]);
      ProcessedTable(states[k - 1], c.offerId, e, false, c.retries, w);
    }
  }

  lemma FirstStartUndisturbed(
    c: Setup, events: seq<Event>, tried: seq<Reference>, replayed: nat -> World, worlds: nat -> World,
    states: seq<State>)
    requires Follows(c, PrecacheSteps(events, tried, replayed, worlds), states) && states[0].jobs == map[]
    ensures IsUndisturbed(PrecacheSteps(events, tried, replayed, worlds), states, 0, |events| + |tried|)
  {
    forall k | 0 <= k < |events| + |tried|
      ensures Undisturbed(states[k], PrecacheSteps(events, tried, replayed, worlds)[k])
    {
      StartUndisturbed(c, events, tried, replayed, worlds, states, k);
    }
  }

  lemma StartIsRun(
    c: Setup, s: State, t: State, thrown: bool, tried: seq<Reference>, events: seq<Event>, now: int,
    replayed: nat -> World, worlds: nat -> World) returns (states: seq<State>)
    requires var rows := TableAfter(s.rows, c.offerId, Written(events, replayed));
             && AllFunded(rows, tried, now)
             && t == PinEach(s.(rows := rows), tried, c.retries, worlds)
             && (!thrown ==> Enumerates(tried, FundedRefs(rows, now)))
             && (!thrown && c.retries >= 1 ==> ArePinned(t, FundedRefs(rows, now)))
    ensures var steps := PrecacheSteps(events, tried, replayed, worlds);
            && Follows(c, steps, states) && states[0] == s && states[|steps|] == t
            && (s.jobs == map[] ==> IsUndisturbed(steps, states, 0, |steps|))
            && (s.jobs == map[] && !thrown && c.retries >= 1 ==> Backed(t) && JobsHaveRows(t))
  {
    states := PrecacheIsRun(c, s, events, tried, replayed, worlds);
    if s.jobs == map[] {
      FirstStartUndisturbed(c, events, tried, replayed, worlds, states);
      if !thrown && c.retries >= 1 {
        PrecacheBacks(Replayed(c, s, events, replayed), tried, c.retries, worlds);
      }
    }
  }

  /** The start of a service that precaches, for the first time or forced over stored rows, is
      a sequence of steps. A first start is undisturbed, also when it throws, and its end is
      backed if it does not; from there ActiveStayPinned goes on. */
  method Start(s: Service, c: Setup, events: seq<Event>, now: int, replayed: nat -> World, worlds: nat -> World)
    returns (thrown: bool, ghost steps: seq<Step>, ghost states: seq<State>)
    requires s.retries == c.retries
    modifies s, s.node
    ensures Follows(c, steps, states) && states[0] == old(s.View()) && states[|steps|] == s.View()
    ensures old(s.jobs) == map[] ==> IsUndisturbed(steps, states, 0, |steps|)
    ensures old(s.jobs) == map[] && !thrown && c.retries >= 1 ==> Backed(s.View()) && JobsHaveRows(s.View())
  {
    ghost var before := s.View();
    ghost var tried;
    thrown, tried := Precache(s, c.offerId, events, now, replayed, worlds);
    steps := PrecacheSteps(events, tried, replayed, worlds);
    states := StartIsRun(c, before, s.View(), thrown, tried, events, now, replayed, worlds);
  }

  // ----- Closed agreements stay unpinned -----

  /** The step closes agreement r: it is stopped and the unpin takes effect, or the collector
      deactivates it. */
  predicate Closes(s: State, step: Step, t: State, r: Reference) {
    match step
    case OnEvent(e, manager, w) =>
      e == AgreementStopped(r) && manager && r in s.rows && !w.writeBroken && !w.unpin.Refused?
    case OnBlock(_, _, _) => r in Deactivated(s.rows, t.rows)
    case OnRepin(_, _) => false
  }

  predicate HasUnpinned(s: State, r: Reference) {
    r in s.rows && s.rows[r].dataReference !in s.pinned
  }

  /** A step that starts a pin job for r, or may give it other data. */
  predicate Pins(c: Setup, step: Step, r: Reference) {
    match step
    case OnEvent(_, _, _) => IsCreation(c, step, r)
    case OnBlock(_, _, _) => false
    case OnRepin(q, _) => q == r
  }

  lemma OtherPinsKeep(s: State, q: Reference, retries: int, w: World, hash: string)
    requires q in s.rows && s.rows[q].dataReference != hash && hash !in s.pinned
    ensures hash !in PinFor(s, q, retries, w).state.pinned
  {
    var row := s.rows[q];
    if retries >= 1 {
      var k := PinGuarantee(s.pinned, row.dataReference, row.account.size, w.tries, retries);
      var after := Pin(s.pinned, row.dataReference, row.account.size, w.tries, retries).pinned;
      assert hash in after ==> hash in after - {row.dataReference};
    }
  }

  lemma StepKeepsUnpinned(c: Setup, s: State, step: Step, t: State, r: Reference)
    requires Next(c, s, step, t) && !Pins(c, step, r)
    requires NoSharedData(t.rows)
    requires HasUnpinned(s, r)
    ensures HasUnpinned(t, r)
  {
    var hash := s.rows[r].dataReference;
    match step {
      case OnEvent(e, manager, w) =>
        if e.NewAgreement? && e.provider == c.offerId && manager && !w.writeBroken && !w.broadcastBroken {
          var announced := Announce(s.(rows := Write(s.rows, e)), IAgreementNew, e.reference);
          assert t.rows == announced.rows && e.reference != r;
          assert t.rows[r] == s.rows[r] && t.rows[e.reference].dataReference != t.rows[r].dataReference;
          OtherPinsKeep(announced, e.reference, c.retries, w, hash);
        }
      case OnBlock(b, _, _) =>
        GcRowAgain(s.rows[r], b.At(r));
      case OnRepin(q, w) =>
        if q in s.rows {
          OtherPinsKeep(s, q, c.retries, w, hash);
        }
    }
  }

  lemma ClosingUnpins(c: Setup, s: State, step: Step, t: State, r: Reference)
    requires Next(c, s, step, t) && Closes(s, step, t, r)
    ensures HasUnpinned(t, r)
  {
  }

  lemma {:induction false} UnpinnedUntilPinned(
    c: Setup, steps: seq<Step>, states: seq<State>, from: nat, i: nat, r: Reference)
    requires Follows(c, steps, states) && from <= i <= |steps| && HasUnpinned(states[from], r)
    requires forall k :: from <= k < i ==> !Pins(c, steps[k], r)
    requires forall k :: from <= k <= i ==> NoSharedData(states[k].rows)
    ensures HasUnpinned(states[i], r)
    decreases i
  {
    if from < i {
      UnpinnedUntilPinned(c, steps, states, from, i - 1, r);
      StepKeepsUnpinned(c, states[i - 1], steps[i - 1], states[i], r);
    }
  }

  /** From its closing at step j on, until it is created again or re-pinned, a closed
      agreement's hash is not pinned, as long as no other agreement is about the same data. */
  lemma ClosedStayUnpinned(c: Setup, steps: seq<Step>, states: seq<State>, j: nat, i: nat, r: Reference)
    requires Follows(c, steps, states) && j < i <= |steps| && Closes(states[j], steps[j], states[j + 1], r)
    requires forall k :: j < k < i ==> !Pins(c, steps[k], r)
    requires forall k :: j < k <= i ==> NoSharedData(states[k].rows)
    ensures HasUnpinned(states[i], r)
  {
    ClosingUnpins(c, states[j], steps[j], states[j + 1], r);
    UnpinnedUntilPinned(c, steps, states, j + 1, i, r);
  }

  // ----- The conditions are needed -----

  /** An active agreement other than these, about this data, whose latest pin job worked. */
  ghost predicate OtherBackedBy(s: State, others: set<Reference>, data: string) {
    exists r :: r in s.rows && r !in others && s.rows[r].isActive && r in s.jobs && s.jobs[r].Done?
                && s.rows[r].dataReference == data
  }

  /** When the rows of `gone` are deactivated and the hashes of `dropped` removed, the rest is
      backed exactly when no agreement that stays is about data that was dropped. */
  lemma RemovalBreaksExactly(s: State, t: State, gone: set<Reference>, dropped: set<Reference>)
    requires Backed(s) && dropped <= s.rows.Keys && JobsHaveRows(s)
    requires t.rows.Keys == s.rows.Keys && t.jobs == s.jobs && t.pinned == s.pinned - Hashes(s.rows, dropped)
    requires forall r :: r in s.rows ==>
               && (t.rows[r].isActive <==> s.rows[r].isActive && r !in gone)
               && t.rows[r].dataReference == s.rows[r].dataReference
    ensures Backed(t) <==> forall p :: p in dropped ==> !OtherBackedBy(s, gone, s.rows[p].dataReference)
  {
    if p :| p in dropped && OtherBackedBy(s, gone, s.rows[p].dataReference) {
      var r :| r in s.rows && r !in gone && s.rows[r].isActive && r in s.jobs && s.jobs[r].Done?
               && s.rows[r].dataReference == s.rows[p].dataReference;
      assert t.rows[r].isActive && t.rows[r].dataReference !in t.pinned;
    } else {
      forall r | r in t.rows && t.rows[r].isActive && r in t.jobs && t.jobs[r].Done?
        ensures t.rows[r].dataReference in t.pinned
      {
        assert s.rows[r].dataReference !in Hashes(s.rows, dropped);
      }
    }
  }

  /** With shared data: stopping q takes another agreement's pin exactly when an active one with
      a finished job is about the same data and the unpin takes effect. */
  lemma StopBreaksExactly(c: Setup, s: State, q: Reference, w: World)
    requires Backed(s) && q in s.rows
    ensures var t := Process(s, c.offerId, AgreementStopped(q), true, c.retries, w);
            Backed(t) <==> w.writeBroken || w.unpin.Refused? || !OtherBackedBy(s, {q}, s.rows[q].dataReference)
  {
  }

  /** Likewise a complete collector run takes another agreement's pin exactly when a collected
      agreement is about the same data as an active one with a finished job that stays. */
  lemma CollectionBreaksExactly(s: State, t: State, b: Block, announced: seq<Reference>)
    requires Backed(s) && JobsHaveRows(s) && GcStep(s, t, b, Completed, announced) && b.Timely()
    ensures var gone := CollectedRefs(s.rows, b);
            Backed(t) <==> forall q :: q in gone ==> !OtherBackedBy(s, gone, s.rows[q].dataReference)
  {
    CompletedResult(s, t, b, announced);
    forall r | r in s.rows
      ensures t.rows[r].dataReference == s.rows[r].dataReference
    {
      GcRowAgain(s.rows[r], b.At(r));
    }
    RemovalBreaksExactly(s, t, CollectedRefs(s.rows, b), CollectedRefs(s.rows, b));
  }

  lemma LostUnpinRows(s: State, t: State, b: Block, announced: seq<Reference>, q: Reference)
    requires GcStep(s, t, b, UnpinLost(q), announced) && b.Timely()
    ensures var gone := Deactivated(s.rows, t.rows);
            && q in s.rows && s.rows[q].isActive && q !in gone && t.rows.Keys == s.rows.Keys && t.jobs == s.jobs
            && t.pinned == s.pinned - Hashes(s.rows, gone + {q})
            && forall r :: r in s.rows ==>
                 && (t.rows[r].isActive <==> s.rows[r].isActive && r !in gone)
                 && t.rows[r].dataReference == s.rows[r].dataReference
  {
    forall r | r in s.rows
      ensures t.rows[r].isActive ==> s.rows[r].isActive
      ensures t.rows[r].dataReference == s.rows[r].dataReference
      ensures r == q ==> s.rows[r].isActive
    {
      GcRowAgain(s.rows[r], b.At(r));
    }
    HashesMore(s.rows, Deactivated(s.rows, t.rows), q);
  }

  lemma UnsharedOther(s: State, gone: set<Reference>, p: Reference)
    requires NoSharedData(s.rows) && p in s.rows
    ensures OtherBackedBy(s, gone, s.rows[p].dataReference)
       <==> p !in gone && s.rows[p].isActive && p in s.jobs && s.jobs[p].Done?
  {
  }

  /** When the collector's unpin for q takes effect and throws, q stays active without its pin:
      then some active agreement is not backed exactly when q itself has a finished job, or
      another one that stays is about the data of q or of a row collected before. */
  lemma LostUnpinBreaksExactly(s: State, t: State, b: Block, announced: seq<Reference>, q: Reference)
    requires Backed(s) && JobsHaveRows(s) && GcStep(s, t, b, UnpinLost(q), announced) && b.Timely()
    ensures var gone := Deactivated(s.rows, t.rows);
            && q in s.rows && s.rows[q].isActive && t.rows[q].isActive
            && (Backed(t) <==> forall p :: p in gone + {q} ==> !OtherBackedBy(s, gone, s.rows[p].dataReference))
  {
    var gone := Deactivated(s.rows, t.rows);
    LostUnpinRows(s, t, b, announced, q);
    RemovalBreaksExactly(s, t, gone, gone + {q});
  }

  /** Without shared data: exactly when q has a finished job. */
  lemma LostUnpinUnshared(s: State, t: State, b: Block, announced: seq<Reference>, q: Reference)
    requires Backed(s) && JobsHaveRows(s) && GcStep(s, t, b, UnpinLost(q), announced) && b.Timely()
    requires NoSharedData(s.rows)
    ensures Backed(t) <==> !(q in s.jobs && s.jobs[q].Done?)
  {
    var gone := Deactivated(s.rows, t.rows);
    LostUnpinBreaksExactly(s, t, b, announced, q);
    LostUnpinRows(s, t, b, announced, q);
    forall p | p in gone + {q}
      ensures OtherBackedBy(s, gone, s.rows[p].dataReference) <==> p == q && q in s.jobs && s.jobs[q].Done?
    {
      UnsharedOther(s, gone, p);
    }
  }

  /** And so does a pin job for r, exactly when some attempt took the pin away and none added it
      again after that. */
  lemma PinJobBreaksExactly(s: State, r: Reference, retries: int, w: World)
    requires Backed(s) && r in s.rows && retries >= 1
    ensures var size := s.rows[r].account.size;
            var n := LastAttempt(size, w.tries, retries, 0) + 1;
            var kept := NoneRemoves(size, w.tries, 0, n) || AddedForGood(size, w.tries, n);
            Backed(PinFor(s, r, retries, w).state) <==> kept || !OtherBackedBy(s, {r}, s.rows[r].dataReference)
  {
    var row, t := s.rows[r], PinFor(s, r, retries, w).state;
    var hash := row.dataReference;
    PinsAfterRetries(s.pinned, hash, row.account.size, w.tries, LastAttempt(row.account.size, w.tries, retries, 0) + 1);
    if t.jobs[r].Done? {
      NormalReturnPins(s.pinned, hash, row.account.size, w.tries, retries);
    }
    forall q | q in s.rows && s.rows[q].dataReference != hash
      ensures s.rows[q].dataReference in s.pinned ==> s.rows[q].dataReference in t.pinned
    {
      assert s.rows[q].dataReference in s.pinned ==> s.rows[q].dataReference in s.pinned - {hash};
    }
    if hash !in t.pinned && OtherBackedBy(s, {r}, hash) {
      var q :| q in s.rows && q !in {r} && s.rows[q].isActive && q in s.jobs && s.jobs[q].Done?
               && s.rows[q].dataReference == hash;
      assert t.rows[q] == s.rows[q] && t.jobs[q] == s.jobs[q];
    }
  }

  function SmallFile(): World {
    World(false, (i: nat) => Smooth(Replies(Some(0), Worked, Some(0), Worked)), Worked, false)
  }

  lemma SmallFileIsPinned(s: State, r: Reference, retries: int)
    requires r in s.rows && retries >= 1
    ensures PinFor(s, r, retries, SmallFile())
         == Handled(s.(pinned := s.pinned + {s.rows[r].dataReference}, jobs := s.jobs[r := Done]), false)
  {
    var row := s.rows[r];
    LastAttemptIs(row.account.size, SmallFile().tries, retries, 0);
    NormalReturnPins(s.pinned, row.dataReference, row.account.size, SmallFile().tries, retries);
  }

  /** Two agreements about the same data: stopping the second unpins the first's. */
  lemma SharedDataLosesPin(c: Setup, r: Reference, q: Reference, data: string, a: Account)
    returns (steps: seq<Step>, states: seq<State>)
    requires r != q && c.retries >= 1
    ensures IsRun(c, steps, states) && IsUndisturbed(steps, states, 0, |steps|)
    ensures !Backed(states[|steps|])
  {
    var w := SmallFile();
    var first, second := NewAgreement(r, c.offerId, data, a), NewAgreement(q, c.offerId, data, a);
    steps := [OnEvent(first, true, w), OnEvent(second, true, w), OnEvent(AgreementStopped(q), true, w)];
    var s0 := EMPTY_STATE;
    SmallFileIsPinned(Announce(s0.(rows := Write(s0.rows, first)), IAgreementNew, r), r, c.retries);
    var s1 := Process(s0, c.offerId, first, true, c.retries, w);
    SmallFileIsPinned(Announce(s1.(rows := Write(s1.rows, second)), IAgreementNew, q), q, c.retries);
    var s2 := Process(s1, c.offerId, second, true, c.retries, w);
    var s3 := Process(s2, c.offerId, AgreementStopped(q), true, c.retries, w);
    states := [s0, s1, s2, s3];
    assert s3.rows[r] == Agreement(data, true, None, a) && s3.jobs[r] == Done && data !in s3.pinned;
  }

  /** Without a single try configured, the pin job returns normally and pins nothing. */
  lemma NoRetriesNoPin(c: Setup, r: Reference, data: string, a: Account, w: World)
    requires c.retries < 1 && !w.writeBroken && !w.broadcastBroken
    ensures var s := Process(EMPTY_STATE, c.offerId, NewAgreement(r, c.offerId, data, a), true, c.retries, w);
            IsRun(c, [OnEvent(NewAgreement(r, c.offerId, data, a), true, w)], [EMPTY_STATE, s]) && !Backed(s)
  {
  }
}

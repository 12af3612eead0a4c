/** Jobs with retries: a job runs, may fail, backs off and runs again, and each step of it is
    broadcast. A failing broadcast counts as a failure of the attempt, or ends the job when
    it was the broadcast about a failure; a failing save of the job's record fails the
    attempt, too. The save that records such a failure succeeds. */
module Jobs {
  import opened Wrappers
  import opened Outcomes
  import opened PinJobs

  /** What befalls one attempt: the node's replies, the clock when the job runs and when it
      ends, which of its saves fail (that it runs, that it is finished) and which of its
      broadcasts (at the start, that it is done, about its failure or the retry). */
  datatype Try = Try(
    replies: Replies,
    began: int,
    ended: int,
    runningLost: bool,
    finishedLost: bool,
    startLost: bool,
    doneLost: bool,
    failureLost: bool)
  {
    predicate NothingLost() {
      !runningLost && !finishedLost && !startLost && !doneLost && !failureLost
    }
  }

  /** An attempt on which everything but the node works. */
  function Smooth(replies: Replies): Try {
    Try(replies, 0, 0, false, false, false, false, false)
  }

  datatype JobState = CREATED | RUNNING | BACKOFF | ERRORED | FINISHED

  datatype JobNotice =
    | HashStart(hash: string, reference: string)
    | HashPinned(hash: string, reference: string)
    | HashRetry(hash: string, retryNumber: int, totalRetries: int, error: JobError, reference: string)
    | SizeLimitExceeded(hash: string, bytes: nat, paid: nat, reference: string)
    | General(hash: string, error: JobError)

  /** What a job is about: the hash to pin, for which agreement, and its paid megabytes. */
  datatype JobName = JobName(hash: string, reference: string, size: nat)

  /** The pin job of an agreement, the only kind of job there is. */
  class Job {
    const node: IpfsNode
    const name: JobName
    var state: JobState
    var start: Option<int>
    var finish: Option<int>
    var retried: Option<(int, int)>
    var error: Option<JobError>

    constructor (node: IpfsNode, name: JobName)
      ensures this.node == node && this.name == name
      ensures state == CREATED && start == None && finish == None && retried == None && error == None
    {
      this.node, this.name := node, name;
      state, start, finish, retried, error := CREATED, None, None, None, None;
    }

    /** Runs the job once; the outcome is what the finished or error event reports. */
    method Run(t: Try) returns (o: Outcome)
      modifies this, node
      ensures o == JobOutcome(name.size, t)
      ensures node.pinned == JobPins(old(node.pinned), name.hash, name.size, t)
      ensures state == (if o.Done? then FINISHED else ERRORED) && retried == old(retried)
      ensures start == Some(t.began) && finish == Some(t.ended)
      ensures error == if o.Failed? then Some(o.error) else old(error)
    {
      state, start := RUNNING, Some(t.began);
      o := SAVE_LOST;
      if !t.runningLost {
        o := node.RunPinJob(name.hash, name.size, t.replies);
        if o.Done? {
          state, finish := FINISHED, Some(t.ended);
          if t.finishedLost {
            o := SAVE_LOST;
          }
        }
      }
      if o.Failed? {
        state, finish, error := ERRORED, Some(t.ended), Some(o.error);
      }
    }

    method Retry(count: int, total: int)
      modifies this`retried, this`state
      ensures retried == Some((count, total)) && state == BACKOFF
    {
      retried := Some((count, total));
      state := BACKOFF;
    }
  }

  function FinalState(o: Outcome): JobState {
    if o.Done? then FINISHED else ERRORED
  }

  // ----- One attempt, with its saves and broadcasts -----

  const SAVE_LOST := Failed(Failure("save"))

  function JobOutcome(size: nat, t: Try): Outcome {
    if t.runningLost || (AttemptOutcome(size, t.replies).Done? && t.finishedLost) then SAVE_LOST
    else AttemptOutcome(size, t.replies)
  }

  function JobPins(pinned: set<string>, hash: string, size: nat, t: Try): set<string> {
    if t.runningLost then pinned else AttemptPins(pinned, hash, size, t.replies)
  }

  const BROADCAST_LOST := Failed(Failure("broadcast"))

  function TryOutcome(size: nat, t: Try): Outcome {
    if t.startLost then BROADCAST_LOST
    else if JobOutcome(size, t).Done? && t.doneLost then BROADCAST_LOST
    else JobOutcome(size, t)
  }

  function TryPins(pinned: set<string>, hash: string, size: nat, t: Try): set<string> {
    if t.startLost then pinned else JobPins(pinned, hash, size, t)
  }

  /** The attempt's failure is one to be retried. */
  predicate Retryable(size: nat, tries: nat -> Try, retries: int, i: nat) {
    var o := TryOutcome(size, tries(i));
    o.Failed? && o.error.Failure? && i + 1 != retries
  }

  /** The attempt ends the job: it worked, or its error says not to retry, or none is left, or
      the retry cannot be announced. */
  predicate Decisive(size: nat, tries: nat -> Try, retries: int, i: nat) {
    !Retryable(size, tries, retries, i) || tries(i).failureLost
  }

  /** The first decisive attempt from i on. */
  function LastAttempt(size: nat, tries: nat -> Try, retries: int, i: nat): (k: nat)
    requires i < retries
    ensures i <= k < retries && Decisive(size, tries, retries, k)
    ensures forall j: nat :: i <= j < k ==> !Decisive(size, tries, retries, j)
    decreases retries - i
  {
    if Decisive(size, tries, retries, i) then i else LastAttempt(size, tries, retries, i + 1)
  }

  lemma LastAttemptIs(size: nat, tries: nat -> Try, retries: int, k: nat)
    requires k < retries && Decisive(size, tries, retries, k)
    requires forall i: nat :: i < k ==> !Decisive(size, tries, retries, i)
    ensures LastAttempt(size, tries, retries, 0) == k
  {
  }

  /** What the caller gets when the job ends with attempt t: Done is a normal return, Failed
      the thrown error. */
  function Result(size: nat, t: Try): Outcome {
    if TryOutcome(size, t).Failed? && t.failureLost then BROADCAST_LOST else TryOutcome(size, t)
  }

  // ----- Which attempt is the last -----

  /** Both sizes are known and within the paid size, and the node adds the pin. */
  predicate FileFits(size: nat, r: Replies) {
    && r.metaSize.Some? && r.metaSize.value <= size * 1024 * 1024
    && r.added.Worked?
    && r.actualSize.Some? && r.actualSize.value <= size * 1024 * 1024
  }

  /** The announced size is too big; or the actual one is, and the pin is removed again. */
  predicate FileTooBig(size: nat, r: Replies) {
    if r.metaSize.Some? && r.metaSize.value > size * 1024 * 1024 then true
    else
      && r.metaSize.Some? && r.added.Worked?
      && r.actualSize.Some? && r.actualSize.value > size * 1024 * 1024
      && r.removed.Worked?
  }

  /** An attempt works exactly when the file fits and none of its saves and broadcasts is lost;
      it ends in a size error exactly when the job ran and the file is too big. Without its start
      announced and recorded it asks nothing of the node. */
  lemma TryInReplies(size: nat, t: Try)
    ensures var o, ran := TryOutcome(size, t), !t.startLost && !t.runningLost;
            && (o == Done <==> ran && FileFits(size, t.replies) && !t.finishedLost && !t.doneLost)
            && (o.Failed? && o.error.SizeExceeded? <==> ran && FileTooBig(size, t.replies))
            && (o.Failed? ==> o.error.SizeExceeded? || o.error.Failure?)
    ensures forall pinned, hash :: TryPins(pinned, hash, size, t) ==
              if t.startLost || t.runningLost then pinned else AttemptPins(pinned, hash, size, t.replies)
  {
    AttemptInReplies({}, "", size, t.replies);
  }

  /** The last attempt is the first that works, finds the file too big, fails to announce its
      retry, or is the last allowed one. */
  lemma LastAttemptInReplies(size: nat, tries: nat -> Try, retries: int) returns (k: nat)
    requires retries >= 1
    ensures k == LastAttempt(size, tries, retries, 0) && k < retries
    ensures forall i: nat :: i <= k ==>
              var t := tries(i);
              var ran := !t.startLost && !t.runningLost;
              i == k <==> || (ran && FileFits(size, t.replies) && !t.finishedLost && !t.doneLost)
                          || (ran && FileTooBig(size, t.replies)) || t.failureLost || i + 1 == retries
  {
    k := LastAttempt(size, tries, retries, 0);
    forall i: nat | i <= k
      ensures var t := tries(i);
              var ran := !t.startLost && !t.runningLost;
              Decisive(size, tries, retries, i)
              <==> (ran && FileFits(size, t.replies) && !t.finishedLost && !t.doneLost)
                   || (ran && FileTooBig(size, t.replies)) || t.failureLost || i + 1 == retries
    {
      TryInReplies(size, tries(i));
    }
  }

  /** A file found too big is not tried again, and the job throws the size error. */
  lemma TooBigIsLast(size: nat, tries: nat -> Try, retries: int, i: nat)
    requires retries >= 1 && i <= LastAttempt(size, tries, retries, 0)
    requires !tries(i).startLost && !tries(i).runningLost && FileTooBig(size, tries(i).replies)
    ensures i == LastAttempt(size, tries, retries, 0)
    ensures var o := Result(size, tries(i));
            !tries(i).failureLost ==> o.Failed? && o.error.SizeExceeded? && o.error.paid == size
  {
    var k := LastAttemptInReplies(size, tries, retries);
    TryInReplies(size, tries(i));
  }

  // ----- The trace of notices -----

  function Told(n: JobNotice, lost: bool): seq<JobNotice> {
    if lost then [] else [n]
  }

  function FailureNotice(job: JobName, e: JobError): JobNotice {
    match e
    case SizeExceeded(_, bytes, paid) => SizeLimitExceeded(job.hash, bytes, paid, job.reference)
    case _ => General(job.hash, e)
  }

  /** The start of attempt t, and that it is done. */
  function TryNotices(job: JobName, t: Try): seq<JobNotice> {
    Told(HashStart(job.hash, job.reference), t.startLost)
    + if !t.startLost && JobOutcome(job.size, t).Done?
      then Told(HashPinned(job.hash, job.reference), t.doneLost) else []
  }

  /** Attempt i, and then its retry, its error or nothing more. */
  function RoundNotices(job: JobName, tries: nat -> Try, retries: int, i: nat): seq<JobNotice> {
    var o := TryOutcome(job.size, tries(i));
    TryNotices(job, tries(i))
    + if o.Done? then []
      else if Retryable(job.size, tries, retries, i)
      then Told(HashRetry(job.hash, i + 1, retries, o.error, job.reference), tries(i).failureLost)
      else Told(FailureNotice(job, o.error), tries(i).failureLost)
  }

  /** The notices of the first k attempts. */
  function Trace(job: JobName, tries: nat -> Try, retries: int, k: nat): seq<JobNotice> {
    if k == 0 then [] else Trace(job, tries, retries, k - 1) + RoundNotices(job, tries, retries, k - 1)
  }

  lemma TraceNext(told: seq<JobNotice>, job: JobName, tries: nat -> Try, retries: int, k: nat)
    ensures told + Trace(job, tries, retries, k) + RoundNotices(job, tries, retries, k)
         == told + Trace(job, tries, retries, k + 1)
  {
  }

  /** What is told of one attempt: its start, unless that is lost; that it is done, exactly when
      the file fits, it was recorded and the broadcast works; and of a failure one notice,
      exactly when its broadcast works, which is a retry if there is one. */
  lemma RoundInReplies(job: JobName, tries: nat -> Try, retries: int, i: nat)
    requires i < retries
    ensures var told, t := RoundNotices(job, tries, retries, i), tries(i);
            var done := !t.startLost && !t.runningLost && FileFits(job.size, t.replies) && !t.finishedLost;
            var failed := !done || t.doneLost;
            && (HashStart(job.hash, job.reference) in told <==> !t.startLost)
            && (HashPinned(job.hash, job.reference) in told <==> done && !t.doneLost)
            && |told| == (if t.startLost then 0 else 1) + (if failed && t.failureLost then 0 else 1)
            && (failed && !t.failureLost ==>
                  var last := told[|told| - 1];
                  if !t.startLost && !t.runningLost && FileTooBig(job.size, t.replies) then last.SizeLimitExceeded?
                  else if i + 1 == retries then last == General(job.hash, TryOutcome(job.size, t).error)
                  else last == HashRetry(job.hash, i + 1, retries, TryOutcome(job.size, t).error, job.reference))
  {
    TryInReplies(job.size, tries(i));
    AttemptInReplies({}, "", job.size, tries(i).replies);
  }

  // ----- Backing off -----

  function Pow2(k: nat): (p: nat)
    ensures p > 0
  {
    if k == 0 then 1 else 2 * Pow2(k - 1)
  }

  function TotalSleep(backoff: nat, exponential: bool, k: nat): int {
    if exponential then backoff * (Pow2(k) - 1) else backoff * k
  }

  function BackoffAfter(backoff: nat, exponential: bool, k: nat): nat {
    if exponential then backoff * Pow2(k) else backoff
  }

  /** The total sleep in numbers: the backoff k times, or doubling: once, three times, seven
      times the backoff, and so on. */
  lemma SleepInNumbers(backoff: nat, k: nat)
    ensures TotalSleep(backoff, false, k) == k * backoff
    ensures TotalSleep(backoff, true, 0) == 0
    ensures TotalSleep(backoff, true, k + 1) == 2 * TotalSleep(backoff, true, k) + backoff
  {
  }

  /** After k retries: the total sleep, and the next one. */
  ghost predicate SleptFor(start: nat, exponential: bool, k: nat, before: int, slept: int, backoff: nat) {
    slept == before + TotalSleep(start, exponential, k) && backoff == BackoffAfter(start, exponential, k)
  }

  lemma SleepOnceMore(start: nat, exponential: bool, k: nat, before: int, slept: int, backoff: nat)
    requires SleptFor(start, exponential, k, before, slept, backoff)
    ensures SleptFor(start, exponential, k + 1, before, slept + backoff, if exponential then backoff * 2 else backoff)
  {
  }

  // ----- The whole job -----

  /** The pinned set after the first n attempts. */
  function PinsAfter(pinned: set<string>, hash: string, size: nat, tries: nat -> Try, n: nat): set<string> {
    if n == 0 then pinned
    else TryPins(PinsAfter(pinned, hash, size, tries, n - 1), hash, size, tries(n - 1))
  }

  /** The state of the job's record when attempt k was the last. A lost start leaves it as the
      attempt before did; a retry that could not be announced leaves it backing off. */
  function EndState(size: nat, tries: nat -> Try, retries: int, k: nat): JobState {
    if Retryable(size, tries, retries, k) then BACKOFF
    else if !tries(k).startLost then FinalState(JobOutcome(size, tries(k)))
    else if k == 0 then CREATED else BACKOFF
  }

  /** Number and total of the last retry when attempt k was the last. */
  function RetriedAt(size: nat, tries: nat -> Try, retries: int, k: nat): Option<(int, int)> {
    if Retryable(size, tries, retries, k) then Some((k + 1, retries))
    else if k == 0 then None else Some((k, retries))
  }

  /** k attempts are over and none was decisive. */
  ghost predicate RoundsOver(
    job: JobName, tries: nat -> Try, retries: int, k: nat,
    told: seq<JobNotice>, notices: seq<JobNotice>, before: set<string>, pinned: set<string>)
  {
    && (forall i: nat :: i < k ==> !Decisive(job.size, tries, retries, i))
    && notices == told + Trace(job, tries, retries, k)
    && pinned == PinsAfter(before, job.hash, job.size, tries, k)
  }

  lemma RoundOver(
    job: JobName, tries: nat -> Try, retries: int, k: nat,
    told: seq<JobNotice>, notices: seq<JobNotice>, before: set<string>, pinned: set<string>)
    requires k < retries && RoundsOver(job, tries, retries, k, told, notices, before, pinned)
    ensures var more := notices + RoundNotices(job, tries, retries, k);
            var after := TryPins(pinned, job.hash, job.size, tries(k));
            && more == told + Trace(job, tries, retries, k + 1)
            && after == PinsAfter(before, job.hash, job.size, tries, k + 1)
            && (Decisive(job.size, tries, retries, k) ==> LastAttempt(job.size, tries, retries, 0) == k)
            && (!Decisive(job.size, tries, retries, k) ==>
                  RoundsOver(job, tries, retries, k + 1, told, more, before, after))
  {
    TraceNext(told, job, tries, retries, k);
    if Decisive(job.size, tries, retries, k) {
      LastAttemptIs(job.size, tries, retries, k);
    }
  }

  class JobsManager {
    const retries: int
    const backoffStart: nat
    const isExponentialBackoff: bool
    var notices: seq<JobNotice>
    var slept: int

    constructor (retries: int, backoffTime: nat, exponentialBackoff: bool)
      ensures this.retries == retries && backoffStart == backoffTime
      ensures isExponentialBackoff == exponentialBackoff && notices == [] && slept == 0
    {
      this.retries, backoffStart, isExponentialBackoff := retries, backoffTime, exponentialBackoff;
      notices, slept := [], 0;
    }

    method Broadcast(n: JobNotice, lost: bool)
      modifies this`notices
      ensures notices == old(notices) + Told(n, lost)
    {
      if !lost {
        notices := notices + [n];
      }
    }

    /** Announces the error that ends the job; the thrown error is that one, or that of the
        broadcast. */
    method HandleError(job: Job, e: JobError, lost: bool) returns (thrown: Outcome)
      modifies this`notices
      ensures notices == old(notices) + Told(FailureNotice(job.name, e), lost)
      ensures !lost ==>
                && |notices| == |old(notices)| + 1
                && notices[|old(notices)|] ==
                     if e.SizeExceeded? then SizeLimitExceeded(job.name.hash, e.bytes, e.paid, job.name.reference)
                     else General(job.name.hash, e)
      ensures lost ==> notices == old(notices)
      ensures thrown == if lost then BROADCAST_LOST else Failed(e)
    {
      match e {
        case SizeExceeded(_, bytes, paid) =>
          Broadcast(SizeLimitExceeded(job.name.hash, bytes, paid, job.name.reference), lost);
        case _ =>
          Broadcast(General(job.name.hash, e), lost);
      }
      thrown := if lost then BROADCAST_LOST else Failed(e);
    }

    /** One attempt with its broadcasts. */
    method Attempt(job: Job, t: Try) returns (o: Outcome)
      modifies this`notices, job, job.node
      ensures o == TryOutcome(job.name.size, t)
      ensures job.node.pinned == TryPins(old(job.node.pinned), job.name.hash, job.name.size, t)
      ensures notices == old(notices) + TryNotices(job.name, t)
      ensures job.retried == old(job.retried)
      ensures job.state == if t.startLost then old(job.state) else FinalState(JobOutcome(job.name.size, t))
    {
      Broadcast(HashStart(job.name.hash, job.name.reference), t.startLost);
      if t.startLost {
        return BROADCAST_LOST;
      }
      o := job.Run(t);
      if o.Done? {
        Broadcast(HashPinned(job.name.hash, job.name.reference), t.doneLost);
        if t.doneLost {
          o := BROADCAST_LOST;
        }
      }
    }

    /** One round of the loop: the attempt, and what is done about its failure. `again` says
        that there is another round; otherwise `o` is how the job ends. */
    method Round(job: Job, tries: nat -> Try, retry: nat) returns (o: Outcome, again: bool)
      requires 1 <= retry <= retries
      requires job.state == if retry == 1 then CREATED else BACKOFF
      requires job.retried == if retry == 1 then None else Some((retry - 1, retries))
      modifies this`notices, job, job.node
      ensures again == !Decisive(job.name.size, tries, retries, retry - 1)
      ensures !again ==> o == Result(job.name.size, tries(retry - 1))
      ensures job.node.pinned == TryPins(old(job.node.pinned), job.name.hash, job.name.size, tries(retry - 1))
      ensures notices == old(notices) + RoundNotices(job.name, tries, retries, retry - 1)
      ensures again ==> job.state == BACKOFF && job.retried == Some((retry, retries))
      ensures !again ==> job.state == EndState(job.name.size, tries, retries, retry - 1)
      ensures !again ==> job.retried == RetriedAt(job.name.size, tries, retries, retry - 1)
    {
      var t := tries(retry - 1);
      o := Attempt(job, t);
      if o.Done? {
        return o, false;
      }
      if !o.error.Failure? || retry == retries {
        o := HandleError(job, o.error, t.failureLost);
        return o, false;
      }
      job.Retry(retry, retries);
      Broadcast(HashRetry(job.name.hash, retry, retries, o.error, job.name.reference), t.failureLost);
      if t.failureLost {
        return BROADCAST_LOST, false;
      }
      again := true;
    }

    /** Sleeps before the next round; nothing to sleep leaves the backoff as it is, too. */
    method BackOff(backoff: nat) returns (next: nat)
      modifies this`slept
      ensures slept == old(slept) + backoff
      ensures next == if isExponentialBackoff then backoff * 2 else backoff
    {
      next := backoff;
      if backoff > 0 {
        slept := slept + backoff;
        if isExponentialBackoff {
          next := backoff * 2;
        }
      }
    }

    /** Runs a job until it works, fails for good or the retries are used up. `Done` is a
        normal return and `Failed` the thrown error. */
    method Run(job: Job, tries: nat -> Try) returns (o: Outcome)
      requires job.state == CREATED && job.retried == None
      modifies this, job, job.node
      ensures retries >= 1 ==>
                var k := LastAttempt(job.name.size, tries, retries, 0);
                && o == Result(job.name.size, tries(k))
                && notices == old(notices) + Trace(job.name, tries, retries, k + 1)
                && job.node.pinned == PinsAfter(old(job.node.pinned), job.name.hash, job.name.size, tries, k + 1)
                && job.state == EndState(job.name.size, tries, retries, k)
                && job.retried == RetriedAt(job.name.size, tries, retries, k)
                && slept == old(slept) + TotalSleep(backoffStart, isExponentialBackoff, k)
      ensures retries < 1 ==> o == Done && notices == old(notices) && slept == old(slept)
                              && job.node.pinned == old(job.node.pinned) && job.state == CREATED
    {
      ghost var before := job.node.pinned;
      var backoff := backoffStart;
      assert SleptFor(backoffStart, isExponentialBackoff, 0, slept, slept, backoff);
      assert old(notices) == old(notices) + [];
      var retry := 1;
      while retry <= retries
        invariant 1 <= retry && retry <= (if retries >= 1 then retries else 1)
        invariant RoundsOver(job.name, tries, retries, retry - 1, old(notices), notices, before, job.node.pinned)
        invariant job.retried == if retry == 1 then None else Some((retry - 1, retries))
        invariant job.state == if retry == 1 then CREATED else BACKOFF
        invariant SleptFor(backoffStart, isExponentialBackoff, retry - 1, old(slept), slept, backoff)
        decreases retries - retry
      {
        var again;
        RoundOver(job.name, tries, retries, retry - 1, old(notices), notices, before, job.node.pinned);
        o, again := Round(job, tries, retry);
        if !again {
          assert LastAttempt(job.name.size, tries, retries, 0) == retry - 1;
          return;
        }
        SleepOnceMore(backoffStart, isExponentialBackoff, retry - 1, old(slept), slept, backoff);
        backoff := BackOff(backoff);
        retry := retry + 1;
      }
      o := Done;
    }
  }

  // ----- The shape of a run -----

  /** Notices 2i and 2i + 1 are START and the retry numbered i + 1. */
  predicate IsStartRetryPair(t: seq<JobNotice>, i: nat, job: JobName, retries: int)
    requires 2 * i + 1 < |t|
  {
    t[2 * i] == HashStart(job.hash, job.reference) && t[2 * i + 1].HashRetry?
    && t[2 * i + 1].hash == job.hash && t[2 * i + 1].reference == job.reference
    && t[2 * i + 1].retryNumber == i + 1 && t[2 * i + 1].totalRetries == retries && t[2 * i + 1].error.Failure?
  }

  lemma {:induction false} RetriesShape(job: JobName, tries: nat -> Try, retries: int, k: nat)
    requires forall i: nat :: i < k ==> !Decisive(job.size, tries, retries, i) && tries(i).NothingLost()
    ensures var t := Trace(job, tries, retries, k);
            |t| == 2 * k && forall i: nat :: i < k ==> IsStartRetryPair(t, i, job, retries)
  {
    if k > 0 {
      RetriesShape(job, tries, retries, k - 1);
      var t, u := Trace(job, tries, retries, k), Trace(job, tries, retries, k - 1);
      assert !Decisive(job.size, tries, retries, k - 1) && tries(k - 1).NothingLost();
      forall i: nat | i < k
        ensures |t| == 2 * k && IsStartRetryPair(t, i, job, retries)
      {
        if i < k - 1 {
          assert IsStartRetryPair(u, i, job, retries);
        }
      }
    }
  }

  /** With no broadcast lost, a job is told as k pairs START RETRY, numbered 1..k in order,
      then START, then PINNED or one error; and its record ends as it returned. */
  lemma TraceShape(job: JobName, tries: nat -> Try, retries: int, k: nat)
    requires retries >= 1 && k == LastAttempt(job.size, tries, retries, 0)
    requires forall i: nat :: i <= k ==> tries(i).NothingLost()
    ensures var t, o := Trace(job, tries, retries, k + 1), Result(job.size, tries(k));
            && |t| == 2 * k + 2
            && (forall i: nat :: i < k ==> IsStartRetryPair(t, i, job, retries))
            && t[2 * k] == HashStart(job.hash, job.reference)
            && t[2 * k + 1] == (
                 if o.Done? then HashPinned(job.hash, job.reference)
                 else if o.error.SizeExceeded?
                 then SizeLimitExceeded(job.hash, o.error.bytes, o.error.paid, job.reference)
                 else General(job.hash, o.error))
            && EndState(job.size, tries, retries, k) == (if o.Done? then FINISHED else ERRORED)
  {
    RetriesShape(job, tries, retries, k);
    var t, u := Trace(job, tries, retries, k + 1), Trace(job, tries, retries, k);
    assert tries(k).NothingLost();
    forall i: nat | i < k
      ensures IsStartRetryPair(t, i, job, retries)
    {
      assert IsStartRetryPair(u, i, job, retries);
    }
  }

  /** The last allowed attempt worked, but it could not be announced. */
  predicate DoneUnannounced(size: nat, retries: int, t: Try, k: nat) {
    k + 1 == retries && !t.startLost && t.doneLost && JobOutcome(size, t).Done?
  }

  /** The record says FINISHED exactly when the job returned normally, except that the pinned
      hash of the last allowed attempt could not be announced: then it throws as well. Every
      other throw leaves ERRORED, or with a lost broadcast what was there before. */
  lemma FinishedMeansReturned(size: nat, tries: nat -> Try, retries: int)
    requires retries >= 1
    ensures var k := LastAttempt(size, tries, retries, 0);
            var t := tries(k);
            var end := EndState(size, tries, retries, k);
            && (end == FINISHED <==> Result(size, t).Done? || DoneUnannounced(size, retries, t, k))
            && (t.NothingLost() ==> end == if Result(size, t).Done? then FINISHED else ERRORED)
  {
  }

  /** The record of a job in the replies to its last attempt: it is backing off when the attempt
      was to be retried; when it was not announced the record is as before; else it is finished
      exactly when the file fits and that could be recorded. It tells the last retry. */
  lemma RecordInReplies(size: nat, tries: nat -> Try, retries: int)
    requires retries >= 1
    ensures var k := LastAttempt(size, tries, retries, 0);
            var t, end := tries(k), EndState(size, tries, retries, k);
            var worked := !t.runningLost && FileFits(size, t.replies) && !t.finishedLost;
            var tooBig := !t.runningLost && FileTooBig(size, t.replies);
            var toRetry := k + 1 < retries && (t.startLost || (!tooBig && !(worked && !t.doneLost)));
            && end == (if toRetry then BACKOFF
                       else if t.startLost then (if k == 0 then CREATED else BACKOFF)
                       else if worked then FINISHED else ERRORED)
            && RetriedAt(size, tries, retries, k)
               == (if toRetry then Some((k + 1, retries)) else if k == 0 then None else Some((k, retries)))
  {
    var k := LastAttempt(size, tries, retries, 0);
    TryInReplies(size, tries(k));
    AttemptInReplies({}, "", size, tries(k).replies);
  }
}

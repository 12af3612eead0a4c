/** The capped log of broadcast messages. A bucket is an agreement reference, or None for
    messages without one. A broadcast creates its row, then queries for the rows of its
    bucket beyond the newest `limit`, then deletes them one by one; these are separate
    awaits, so broadcasts interleave. Row ids grow, so an id is a message's position in
    the history of all created messages. */
module MessageLog {
  import opened Wrappers

  type Bucket = Option<string>

  /** References and codes are tested for truth: the empty one counts as missing. */
  predicate Missing(o: Option<string>) {
    o == None || o == Some("")
  }

  const NEVER_QUERIED: Bucket := Some("")

  /** The bucket that a broadcast with this reference queries; never that of the empty one. */
  function QueryBucket(reference: Option<string>): Bucket {
    if Missing(reference) then None else reference
  }

  datatype Message = Message(bucket: Bucket, code: string, body: string)

  /** A broadcast under way: its row is created, or it is deleting what its query found. */
  datatype Call = Created(reference: Option<string>) | Deleting(stale: set<nat>)

  datatype Log = Log(created: seq<Message>, stored: set<nat>, calls: map<nat, Call>)

  const EMPTY_LOG := Log([], {}, map[])

  // ----- The newest messages of a bucket -----

  /** The messages of bucket b from position `from` on. */
  function InBucket(created: seq<Message>, b: Bucket, from: nat): set<nat> {
    set i: nat | from <= i < |created| && created[i].bucket == b
  }

  function Newer(created: seq<Message>, i: nat): set<nat>
    requires i < |created|
  {
    InBucket(created, created[i].bucket, i + 1)
  }

  /** Message i is among the newest `limit` of its bucket, or in the bucket that no broadcast
      queries: a general error with the empty reference is stored under it, and stays. */
  predicate Kept(created: seq<Message>, limit: nat, i: nat) {
    i < |created| && (created[i].bucket == NEVER_QUERIED || |Newer(created, i)| < limit)
  }

  function KeptIds(created: seq<Message>, limit: nat): set<nat> {
    set i: nat | i < |created| && Kept(created, limit, i)
  }

  function KeptInBucket(created: seq<Message>, limit: nat, b: Bucket, from: nat): set<nat> {
    set i: nat | i in InBucket(created, b, from) && Kept(created, limit, i)
  }

  lemma SubsetSize(x: set<nat>, y: set<nat>)
    requires x <= y
    ensures |x| <= |y|
  {
    assert y == x + (y - x);
  }

  /** A bucket with at least `limit` messages from some point on has `limit` kept ones there. */
  lemma {:induction false} EnoughKept(created: seq<Message>, limit: nat, b: Bucket, from: nat)
    requires |InBucket(created, b, from)| >= limit
    ensures |KeptInBucket(created, limit, b, from)| >= limit
    decreases |created| - from
  {
    var all, kept := InBucket(created, b, from), KeptInBucket(created, limit, b, from);
    if all <= kept {
      SubsetSize(all, kept);
    } else {
      var m :| m in all && m !in kept;
      EnoughKept(created, limit, b, m + 1);
      SubsetSize(KeptInBucket(created, limit, b, m + 1), kept);
    }
  }

  lemma {:induction false} NotTooManyKept(created: seq<Message>, limit: nat, b: Bucket, from: nat)
    requires b != NEVER_QUERIED
    ensures |KeptInBucket(created, limit, b, from)| <= limit
    decreases |created| - from
  {
    var kept := KeptInBucket(created, limit, b, from);
    if from >= |created| {
      assert kept == {};
    } else if from in kept {
      SubsetSize(kept, {from} + Newer(created, from));
    } else {
      NotTooManyKept(created, limit, b, from + 1);
      assert kept == KeptInBucket(created, limit, b, from + 1);
    }
  }

  /** What is kept of a bucket is min(limit, n) messages; of the one never queried, all. */
  lemma KeptCount(created: seq<Message>, limit: nat, b: Bucket)
    ensures var n := |InBucket(created, b, 0)|;
            |KeptInBucket(created, limit, b, 0)| == if n <= limit || b == NEVER_QUERIED then n else limit
  {
    var all, kept := InBucket(created, b, 0), KeptInBucket(created, limit, b, 0);
    if |all| <= limit {
      forall i | i in all
        ensures i in kept
      {
        SubsetSize(Newer(created, i) + {i}, all);
      }
      assert kept == all;
    } else if b == NEVER_QUERIED {
      assert kept == all;
    } else {
      EnoughKept(created, limit, b, 0);
      NotTooManyKept(created, limit, b, 0);
    }
  }

  lemma NewerAfterCreate(created: seq<Message>, m: Message, limit: nat, i: nat)
    requires i < |created|
    ensures Newer(created + [m], i)
         == if m.bucket == created[i].bucket then Newer(created, i) + {|created|} else Newer(created, i)
    ensures Kept(created + [m], limit, i) ==> Kept(created, limit, i)
    ensures Kept(created, limit, i) && m.bucket != created[i].bucket ==> Kept(created + [m], limit, i)
  {
  }

  // ----- The steps of a broadcast -----

  /** The stored rows of the bucket, newest first, without the first `limit`. */
  function Stale(log: Log, b: Bucket, limit: nat): set<nat> {
    set i: nat | i in log.stored && i < |log.created| && log.created[i].bucket == b
                 && |Newer(log.created, i) * log.stored| >= limit
  }

  datatype Step = Create(call: nat, message: Message) | Find(call: nat) | Destroy(call: nat, id: nat) | End(call: nat)

  predicate Enabled(log: Log, step: Step) {
    match step
    case Create(c, _) => c !in log.calls
    case Find(c) => c in log.calls && log.calls[c].Created?
    case Destroy(c, i) => c in log.calls && log.calls[c].Deleting? && i in log.calls[c].stale
    case End(c) => c in log.calls && log.calls[c] == Deleting({})
  }

  function Next(log: Log, limit: nat, step: Step): Log
    requires Enabled(log, step)
  {
    match step
    case Create(c, m) => Log(log.created + [m], log.stored + {|log.created|}, log.calls[c := Created(m.bucket)])
    case Find(c) => log.(calls := log.calls[c := Deleting(Stale(log, QueryBucket(log.calls[c].reference), limit))])
    case Destroy(c, i) => log.(stored := log.stored - {i}, calls := log.calls[c := Deleting(log.calls[c].stale - {i})])
    case End(c) => log.(calls := log.calls - {c})
  }

  ghost predicate IsRun(limit: nat, steps: seq<Step>, logs: seq<Log>) {
    && |logs| == |steps| + 1
    && logs[0] == EMPTY_LOG
    && forall i :: 0 <= i < |steps| ==> Enabled(logs[i], steps[i]) && logs[i + 1] == Next(logs[i], limit, steps[i])
  }

  // ----- The invariant -----

  /** Some call under way will see to message i. */
  predicate Covers(log: Log, c: nat, i: nat)
    requires i < |log.created|
  {
    c in log.calls &&
    match log.calls[c]
    case Created(reference) => QueryBucket(reference) == log.created[i].bucket
    case Deleting(stale) => i in stale
  }

  ghost predicate Covered(log: Log, i: nat)
    requires i < |log.created|
  {
    exists c: nat :: Covers(log, c, i)
  }

  /** What call c is still to delete is out of the newest. */
  ghost predicate Doomed(created: seq<Message>, limit: nat, stale: set<nat>) {
    forall i :: i in stale ==> i < |created| && !Kept(created, limit, i)
  }

  ghost predicate Capped(log: Log, limit: nat) {
    && (forall i :: i in log.stored ==> i < |log.created|)
    && KeptIds(log.created, limit) <= log.stored
    && (forall c :: c in log.calls && log.calls[c].Deleting? ==> Doomed(log.created, limit, log.calls[c].stale))
    && (forall i :: i in log.stored && !Kept(log.created, limit, i) ==> Covered(log, i))
  }

  lemma CreateKeepsKept(log: Log, limit: nat, m: Message)
    requires Capped(log, limit)
    ensures KeptIds(log.created + [m], limit) <= log.stored + {|log.created|}
    ensures forall stale :: Doomed(log.created, limit, stale) ==> Doomed(log.created + [m], limit, stale)
  {
    forall i: nat | i < |log.created|
      ensures Kept(log.created + [m], limit, i) ==> Kept(log.created, limit, i)
    {
      NewerAfterCreate(log.created, m, limit, i);
    }
  }

  lemma CreateKeepsCovered(log: Log, limit: nat, c: nat, m: Message, i: nat)
    requires Capped(log, limit) && c !in log.calls
    requires i in log.stored + {|log.created|} && !Kept(log.created + [m], limit, i)
    ensures Covered(Next(log, limit, Create(c, m)), i)
  {
    var next := Next(log, limit, Create(c, m));
    if i == |log.created| || m.bucket == log.created[i].bucket {
      assert Covers(next, c, i);
    } else {
      NewerAfterCreate(log.created, m, limit, i);
      var d: nat :| Covers(log, d, i);
      assert Covers(next, d, i);
    }
  }

  lemma CreateKeepsCapped(log: Log, limit: nat, c: nat, m: Message)
    requires Capped(log, limit) && c !in log.calls
    ensures Capped(Next(log, limit, Create(c, m)), limit)
  {
    CreateKeepsKept(log, limit, m);
    var next := Next(log, limit, Create(c, m));
    forall i | i in next.stored && !Kept(next.created, limit, i)
      ensures Covered(next, i)
    {
      CreateKeepsCovered(log, limit, c, m, i);
    }
  }

  /** A stored message is out of the newest exactly when `limit` stored ones are newer: the
      kept among the newer ones are all still stored. */
  lemma NotKeptIsStale(log: Log, limit: nat, i: nat)
    requires Capped(log, limit) && i in log.stored && log.created[i].bucket != NEVER_QUERIED
    ensures !Kept(log.created, limit, i) <==> i in Stale(log, log.created[i].bucket, limit)
  {
    var newer, b := Newer(log.created, i), log.created[i].bucket;
    SubsetSize(newer * log.stored, newer);
    if |newer| >= limit {
      EnoughKept(log.created, limit, b, i + 1);
      SubsetSize(KeptInBucket(log.created, limit, b, i + 1), newer * log.stored);
    }
  }

  lemma FindCovers(log: Log, limit: nat, c: nat, i: nat)
    requires Capped(log, limit) && c in log.calls && log.calls[c].Created?
    requires i in log.stored && !Kept(log.created, limit, i)
    ensures Covered(Next(log, limit, Find(c)), i)
  {
    var next := Next(log, limit, Find(c));
    NotKeptIsStale(log, limit, i);
    var d: nat :| Covers(log, d, i);
    assert Covers(next, d, i);
  }

  lemma FindKeepsCapped(log: Log, limit: nat, c: nat)
    requires Capped(log, limit) && c in log.calls && log.calls[c].Created?
    ensures Capped(Next(log, limit, Find(c)), limit)
  {
    var next := Next(log, limit, Find(c));
    forall i | i in Stale(log, QueryBucket(log.calls[c].reference), limit)
      ensures !Kept(log.created, limit, i)
    {
      NotKeptIsStale(log, limit, i);
    }
    forall i | i in log.stored && !Kept(log.created, limit, i)
      ensures Covered(next, i)
    {
      FindCovers(log, limit, c, i);
    }
  }

  /** Deleting a row, or ending with nothing left to delete, uncovers no stored message. */
  lemma StillCovered(log: Log, limit: nat, step: Step, i: nat)
    requires Enabled(log, step) && (step.Destroy? || step.End?)
    requires i < |log.created| && Covered(log, i) && i in Next(log, limit, step).stored
    ensures Covered(Next(log, limit, step), i)
  {
    var d: nat :| Covers(log, d, i);
    assert Covers(Next(log, limit, step), d, i);
  }

  lemma StepKeepsCapped(log: Log, limit: nat, step: Step)
    requires Capped(log, limit) && Enabled(log, step)
    ensures Capped(Next(log, limit, step), limit)
  {
    match step {
      case Create(c, m) => CreateKeepsCapped(log, limit, c, m);
      case Find(c) => FindKeepsCapped(log, limit, c);
      case _ =>
        var next := Next(log, limit, step);
        forall i | i in next.stored && !Kept(log.created, limit, i)
          ensures Covered(next, i)
        {
          StillCovered(log, limit, step, i);
        }
    }
  }

  /** Under every interleaving of broadcasts, the newest `limit` messages of every bucket are
      always stored; and when no broadcast is under way nothing else is. */
  lemma {:induction false} LogIsNewestSuffix(limit: nat, steps: seq<Step>, logs: seq<Log>, i: nat)
    requires IsRun(limit, steps, logs) && i <= |steps|
    ensures Capped(logs[i], limit)
    ensures KeptIds(logs[i].created, limit) <= logs[i].stored
    ensures logs[i].calls == map[] ==> logs[i].stored == KeptIds(logs[i].created, limit)
    decreases i
  {
    if i == 0 {
    } else {
      LogIsNewestSuffix(limit, steps, logs, i - 1);
      StepKeepsCapped(logs[i - 1], limit, steps[i - 1]);
    }
    forall j | j in logs[i].stored && logs[i].calls == map[]
      ensures Kept(logs[i].created, limit, j)
    {
      assert !Covered(logs[i], j);
    }
  }

  // ----- Resending -----

  predicate Matches(m: Message, reference: Option<string>, code: Option<string>) {
    (Missing(reference) || m.bucket == reference) && (Missing(code) || m.code == code.value)
  }

  /** Those of the messages `ids` that match. */
  function Matching(
    created: seq<Message>, ids: set<nat>, reference: Option<string>, code: Option<string>): set<nat>
  {
    set i | i in ids && i < |created| && Matches(created[i], reference, code)
  }

  /** Fewer than `limit` messages after position i are in its bucket, or none ever leaves it. */
  lemma KeptInColumns(created: seq<Message>, limit: nat, i: nat)
    ensures i in KeptIds(created, limit)
       <==> i < |created| &&
            (created[i].bucket == Some("") ||
             |set k: nat | i < k < |created| && created[k].bucket == created[i].bucket| < limit)
  {
    if i < |created| {
      assert Newer(created, i) == set k: nat | i < k < |created| && created[k].bucket == created[i].bucket;
    }
  }

  /** With no broadcast under way each bucket but that of the empty reference holds min(limit, n)
      of its n messages, and with a message every later one. */
  lemma NewestAtRest(limit: nat, steps: seq<Step>, logs: seq<Log>, i: nat, b: Bucket)
    requires IsRun(limit, steps, logs) && i <= |steps| && logs[i].calls == map[]
    ensures var created, stored := logs[i].created, logs[i].stored;
            var all := set k: nat | k < |created| && created[k].bucket == b;
            var kept := set k: nat | k in stored && k < |created| && created[k].bucket == b;
            && |kept| == (if |all| <= limit || b == Some("") then |all| else limit)
            && forall j: nat, k: nat :: j in kept && j < k < |created| && created[k].bucket == b ==> k in kept
  {
    var created, stored := logs[i].created, logs[i].stored;
    LogIsNewestSuffix(limit, steps, logs, i);
    KeptCount(created, limit, b);
    assert InBucket(created, b, 0) == set k: nat | k < |created| && created[k].bucket == b;
    assert KeptInBucket(created, limit, b, 0) == set k: nat | k in stored && k < |created| && created[k].bucket == b;
    forall j: nat, k: nat | j in stored && j < k < |created| && created[j].bucket == created[k].bucket
      ensures k in stored
    {
      SubsetSize(Newer(created, k), Newer(created, j));
    }
  }

  /** A resend reads the stored rows that match. At any moment these include the matching among
      the newest messages, and with no broadcast under way they are exactly those: position i
      is answered if and only if it is kept, and its reference and code are the requested ones
      as far as they are given and not empty. */
  lemma ResendAtRest(
    limit: nat, steps: seq<Step>, logs: seq<Log>, i: nat, reference: Option<string>, code: Option<string>)
    requires IsRun(limit, steps, logs) && i <= |steps|
    ensures var log := logs[i];
            var answer := Matching(log.created, log.stored, reference, code);
            var newest := Matching(log.created, KeptIds(log.created, limit), reference, code);
            newest <= answer && (log.calls == map[] ==> answer == newest)
    ensures var log := logs[i];
            forall k: nat :: k in Matching(log.created, log.stored, reference, code) <==>
              && k in log.stored && k < |log.created|
              && (reference.Some? && reference.value != "" ==> log.created[k].bucket == reference)
              && (code.Some? && code.value != "" ==> log.created[k].code == code.value)
    ensures logs[i].calls == map[] ==>
              forall k: nat :: k in logs[i].stored <==>
                && k < |logs[i].created|
                && (logs[i].created[k].bucket == Some("") ||
                    |set m: nat | k < m < |logs[i].created| && logs[i].created[m].bucket == logs[i].created[k].bucket|
                      < limit)
  {
    LogIsNewestSuffix(limit, steps, logs, i);
    if logs[i].calls == map[] {
      forall k: nat
        ensures k in logs[i].stored <==> k in KeptIds(logs[i].created, limit)
      {
        KeptInColumns(logs[i].created, limit, k);
      }
      forall k: nat
        ensures k in KeptIds(logs[i].created, limit) <==>
                && k < |logs[i].created|
                && (logs[i].created[k].bucket == Some("") ||
                    |set m: nat | k < m < |logs[i].created| && logs[i].created[m].bucket == logs[i].created[k].bucket|
                      < limit)
      {
        KeptInColumns(logs[i].created, limit, k);
      }
    }
  }

  /** The ids, once each, in some order. */
  ghost predicate Lists(ids: seq<nat>, wanted: set<nat>) {
    && (forall i :: i in wanted <==> i in ids)
    && (forall j, k :: 0 <= j < k < |ids| ==> ids[j] != ids[k])
  }

  predicate AreBodies(messages: seq<string>, ids: seq<nat>, created: seq<Message>) {
    |messages| == |ids| && forall k :: 0 <= k < |ids| ==> ids[k] < |created| && messages[k] == created[ids[k]].body
  }

  const E_GENERAL := "E_GEN"

  /** The message table with one broadcast at a time. */
  class MessageStore {
    const limit: nat
    var rows: map<nat, Message>
    var nextId: nat
    var connected: bool
    ghost var created: seq<Message>

    ghost predicate Valid()
      reads this
    {
      && nextId == |created|
      && rows.Keys == KeptIds(created, limit)
      && forall i :: i in rows ==> rows[i] == created[i]
    }

    constructor (limit: nat)
      ensures Valid() && created == [] && !connected && this.limit == limit
    {
      this.limit := limit;
      rows, nextId, connected, created := map[], 0, false, [];
    }

    method Start()
      modifies this`connected
      ensures connected
    {
      connected := true;
    }

    /** The table as a state of the protocol, with this one broadcast under way. */
    ghost predicate Shows(log: Log)
      reads this
    {
      && nextId == |created| && created == log.created
      && rows.Keys == log.stored
      && (forall i :: i in rows ==> i < |created| && rows[i] == created[i])
      && Capped(log, limit)
    }

    method CreateRow(message: Message, ghost log: Log) returns (ghost next: Log)
      requires Shows(log) && log.calls == map[]
      modifies this`rows, this`nextId, this`created
      ensures created == old(created) + [message]
      ensures Shows(next) && next.calls == map[0 := Created(message.bucket)]
    {
      next := Next(log, limit, Create(0, message));
      StepKeepsCapped(log, limit, Create(0, message));
      rows := rows[nextId := message];
      nextId := nextId + 1;
      created := created + [message];
    }

    /** The query with offset `limit` over the bucket in descending id order. */
    method FindBeyondLimit(reference: Option<string>, ghost log: Log) returns (found: set<nat>, ghost next: Log)
      requires Shows(log) && log.calls == map[0 := Created(reference)]
      ensures Shows(next) && next.created == log.created && next.calls == map[0 := Deleting(found)]
    {
      found := BeyondLimit(rows, QueryBucket(reference), limit);
      QueryIsStale(log, rows, QueryBucket(reference), limit);
      next := Next(log, limit, Find(0));
      StepKeepsCapped(log, limit, Find(0));
    }

    method DestroyRows(ids: set<nat>, ghost log: Log) returns (ghost next: Log)
      requires Shows(log) && log.calls == map[0 := Deleting(ids)]
      modifies this`rows
      ensures Shows(next) && next.calls == map[0 := Deleting({})]
    {
      var left := ids;
      next := log;
      while left != {}
        invariant Shows(next) && next.calls == map[0 := Deleting(left)]
        decreases left
      {
        var id :| id in left;
        DestroyOne(next, limit, left, id);
        left := left - {id};
        next := Log(next.created, next.stored - {id}, map[0 := Deleting(left)]);
        rows := rows - {id};
      }
    }

    /** Fails before creating anything when there is no transport, or a message other than a
        general error has no reference. A transport that fails to send is only logged. */
    method Broadcast(code: string, reference: Option<string>, body: string) returns (thrown: bool)
      requires Valid()
      modifies this`rows, this`nextId, this`created
      ensures Valid()
      ensures thrown == (!connected || (code != "E_GEN" && (reference == None || reference == Some(""))))
      ensures created == if thrown then old(created) else old(created) + [Message(reference, code, body)]
    {
      if !connected || (code != E_GENERAL && Missing(reference)) {
        return true;
      }
      ghost var log := Log(created, rows.Keys, map[]);
      log := CreateRow(Message(reference, code, body), log);
      var messagesToDelete;
      messagesToDelete, log := FindBeyondLimit(reference, log);
      log := DestroyRows(messagesToDelete, log);
      NothingLeft(log, limit);
      thrown := false;
    }

    /** Answers with the stored messages that match the given filters, once each, in whatever
        order the query returns them; `ids` are the rows in that order. */
    method ResendLatest(reference: Option<string>, code: Option<string>)
      returns (messages: seq<string>, ghost ids: seq<nat>)
      requires Valid()
      ensures Lists(ids, Matching(created, KeptIds(created, limit), reference, code))
      ensures forall i: nat :: i in ids <==>
                && i in rows && i < |created|
                && (reference.Some? && reference.value != "" ==> created[i].bucket == reference)
                && (code.Some? && code.value != "" ==> created[i].code == code.value)
      ensures AreBodies(messages, ids, created)
    {
      messages, ids := [], [];
      var found := set i | i in rows && Matches(rows[i], reference, code);
      assert found == Matching(created, KeptIds(created, limit), reference, code);
      var left := found;
      while left != {}
        invariant left <= found && Lists(ids, found - left)
        invariant AreBodies(messages, ids, created)
        decreases left
      {
        var i :| i in left;
        messages := messages + [rows[i].body];
        ids := ids + [i];
        left := left - {i};
      }
      assert found - left == found;
    }
  }

  lemma NothingLeft(log: Log, limit: nat)
    requires Capped(log, limit) && log.calls == map[0 := Deleting({})]
    ensures log.stored == KeptIds(log.created, limit)
  {
  }

  function RowsAfter(rows: map<nat, Message>, b: Bucket, i: nat): set<nat> {
    set j | j in rows && j > i && rows[j].bucket == b
  }

  function BeyondLimit(rows: map<nat, Message>, b: Bucket, limit: nat): set<nat> {
    set i | i in rows && rows[i].bucket == b && |RowsAfter(rows, b, i)| >= limit
  }

  lemma QueryIsStale(log: Log, rows: map<nat, Message>, b: Bucket, limit: nat)
    requires rows.Keys == log.stored && forall i :: i in rows ==> i < |log.created| && rows[i] == log.created[i]
    ensures BeyondLimit(rows, b, limit) == Stale(log, b, limit)
  {
    forall i | i in rows && rows[i].bucket == b
      ensures RowsAfter(rows, b, i) == Newer(log.created, i) * log.stored
    {
    }
  }

  lemma DestroyOne(log: Log, limit: nat, ids: set<nat>, id: nat)
    requires Capped(log, limit) && log.calls == map[0 := Deleting(ids)] && id in ids
    ensures var next := Log(log.created, log.stored - {id}, map[0 := Deleting(ids - {id})]);
            Enabled(log, Destroy(0, id)) && next == Next(log, limit, Destroy(0, id)) && Capped(next, limit)
  {
    StepKeepsCapped(log, limit, Destroy(0, id));
  }
}

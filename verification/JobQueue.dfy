// The jobs table of crates/bvault-jobs/src/queue.rs: every operation is one atomic SQL
// statement, here a function of the table, and a method of the queue object that is
// proved to have exactly that effect. Row ids are positions; rows are never deleted.
module JobQueue {
  import opened Wrappers

  datatype Kind = Analysis | YtDlpIngest

  datatype Status = Pending | Running | Succeeded | Failed | Dead

  datatype Job = Job(
    kind: Kind, key: string, status: Status, attempts: nat, maxAttempts: int,
    lockedUntil: Option<int>, createdAt: int)

  type Jobs = seq<Job>

  predicate Active(job: Job) {
    job.status == Pending || job.status == Running
  }

  // Rows the partial unique index jobs_active_dedup would not let coexist.
  predicate Clash(a: Job, b: Job) {
    Active(a) && Active(b) && a.kind == b.kind && a.key == b.key
  }

  // where status = 'pending' or 'failed' or (status = 'running' and locked_until < now())
  predicate Runnable(job: Job, now: int) {
    || job.status == Pending
    || job.status == Failed
    || (job.status == Running && job.lockedUntil.Some? && job.lockedUntil.value < now)
  }

  // ---- enqueue -------------------------------------------------------------------------

  function ActiveRow(jobs: Jobs, kind: Kind, key: string): (id: nat)
    ensures id <= |jobs|
    ensures id < |jobs| ==> Active(jobs[id]) && jobs[id].kind == kind && jobs[id].key == key
    ensures id == |jobs| ==> forall i :: 0 <= i < |jobs| ==>
      !(Active(jobs[i]) && jobs[i].kind == kind && jobs[i].key == key)
  {
    if jobs == [] then 0
    else if Active(jobs[0]) && jobs[0].kind == kind && jobs[0].key == key then 0
    else 1 + ActiveRow(jobs[1..], kind, key)
  }

  function NewJob(kind: Kind, key: string, maxAttempts: int, now: int): Job {
    Job(kind, key, Pending, 0, maxAttempts, None, now)
  }

  // insert .. on conflict do update: the id of the active row if there is one.
  function Enqueue(jobs: Jobs, kind: Kind, key: string, maxAttempts: int, now: int): Jobs {
    if ActiveRow(jobs, kind, key) < |jobs| then jobs else jobs + [NewJob(kind, key, maxAttempts, now)]
  }

  // ---- claim -----------------------------------------------------------------------------

  // The row the inner select picks: a runnable row of the kind that no other transaction
  // holds locked, none older among those.
  predicate Candidate(jobs: Jobs, kind: Kind, now: int, skipped: set<nat>, id: nat) {
    && id < |jobs| && id !in skipped && jobs[id].kind == kind && Runnable(jobs[id], now)
    && forall i :: 0 <= i < |jobs| && i !in skipped && jobs[i].kind == kind && Runnable(jobs[i], now) ==>
         jobs[id].createdAt <= jobs[i].createdAt
  }

  predicate NoneRunnable(jobs: Jobs, kind: Kind, now: int, skipped: set<nat>) {
    forall i :: 0 <= i < |jobs| && i !in skipped && jobs[i].kind == kind ==> !Runnable(jobs[i], now)
  }

  function ClaimedRow(job: Job, now: int, lease: nat): Job {
    job.(status := Running, attempts := job.attempts + 1, lockedUntil := Some(now + lease))
  }

  // Making this row active would break the unique index.
  predicate Blocked(jobs: Jobs, id: nat)
    requires id < |jobs|
  {
    jobs[id].status == Failed
    && exists i :: 0 <= i < |jobs| && i != id && Active(jobs[i]) && jobs[i].kind == jobs[id].kind &&
         jobs[i].key == jobs[id].key
  }

  // The update of the picked row; a violation of the unique index rolls it back.
  function Claim(jobs: Jobs, id: nat, now: int, lease: nat): Jobs
    requires id < |jobs|
  {
    if Blocked(jobs, id) then jobs else jobs[id := ClaimedRow(jobs[id], now, lease)]
  }

  // ---- single-row updates -----------------------------------------------------------------

  function Heartbeat(jobs: Jobs, id: nat, now: int, lease: nat): Jobs {
    if id < |jobs| && jobs[id].status == Running then jobs[id := jobs[id].(lockedUntil := Some(now + lease))] else jobs
  }

  function SetStatus(jobs: Jobs, id: nat, status: Status): Jobs {
    if id < |jobs| then jobs[id := jobs[id].(status := status, lockedUntil := None)] else jobs
  }

  function Complete(jobs: Jobs, id: nat): Jobs {
    SetStatus(jobs, id, Succeeded)
  }

  function FailureStatus(job: Job): Status {
    if job.attempts >= job.maxAttempts then Dead else Failed
  }

  function Fail(jobs: Jobs, id: nat): Jobs {
    if id < |jobs| then SetStatus(jobs, id, FailureStatus(jobs[id])) else jobs
  }

  function MarkDead(jobs: Jobs, id: nat): Jobs {
    SetStatus(jobs, id, Dead)
  }

  function CountDead(jobs: Jobs, kind: Kind, keys: set<string>): nat {
    if jobs == [] then 0
    else CountDead(jobs[..|jobs| - 1], kind, keys) + if DeadIn(jobs[|jobs| - 1], kind, keys) then 1 else 0
  }

  predicate DeadIn(job: Job, kind: Kind, keys: set<string>) {
    job.kind == kind && job.status == Dead && job.key in keys
  }

  // ---- The queue object -----------------------------------------------------------------------

  datatype ClaimOutcome = Claimed(id: nat) | NothingToDo | UniqueViolation

  class Queue {
    var jobs: Jobs

    constructor ()
      ensures jobs == []
    {
      jobs := [];
    }

    method EnqueueJob(kind: Kind, key: string, maxAttempts: int, now: int) returns (id: nat)
      modifies this
      ensures jobs == Enqueue(old(jobs), kind, key, maxAttempts, now)
      ensures id == ActiveRow(old(jobs), kind, key) < |jobs|
    {
      id := 0;
      while id < |jobs| && !(Active(jobs[id]) && jobs[id].kind == kind && jobs[id].key == key)
        invariant id <= |jobs|
        invariant ActiveRow(jobs, kind, key) == id + ActiveRow(jobs[id..], kind, key)
      {
        assert jobs[id..][1..] == jobs[id + 1..];
        id := id + 1;
      }
      if id == |jobs| {
        jobs := jobs + [NewJob(kind, key, maxAttempts, now)];
      }
    }

    // The oldest runnable row is leased, or nothing happens: there is none, or taking it
    // would violate the unique index.
    method ClaimJob(kind: Kind, now: int, lease: nat, skipped: set<nat>) returns (r: ClaimOutcome)
      modifies this
      ensures r.NothingToDo? ==> NoneRunnable(jobs, kind, now, skipped) && jobs == old(jobs)
      ensures r.Claimed? ==> Candidate(old(jobs), kind, now, skipped, r.id) && !Blocked(old(jobs), r.id)
      ensures r.Claimed? ==> jobs == Claim(old(jobs), r.id, now, lease)
      ensures r.Claimed? ==> OnlyRowChanges(old(jobs), jobs, r.id) && jobs[r.id].status == Running
      ensures r.Claimed? ==> r.id !in skipped && jobs[r.id].kind == kind
      ensures r.Claimed? ==> jobs[r.id].attempts == old(jobs)[r.id].attempts + 1
      ensures r.Claimed? ==> jobs[r.id].lockedUntil == Some(now + lease)
      ensures r.Claimed? ==>
        forall i :: 0 <= i < |jobs| && i !in skipped && jobs[i].kind == kind && jobs[i].status in {Pending, Failed} ==>
          jobs[r.id].createdAt <= jobs[i].createdAt
      ensures r.UniqueViolation? ==> jobs == old(jobs)
      ensures r.UniqueViolation? ==> exists id :: Candidate(jobs, kind, now, skipped, id) && Blocked(jobs, id)
    {
      var best: nat := |jobs|;
      for i := 0 to |jobs|
        invariant best <= |jobs|
        invariant best == |jobs| ==>
          forall k :: 0 <= k < i && k !in skipped && jobs[k].kind == kind ==> !Runnable(jobs[k], now)
        invariant best < |jobs| ==> best < i && best !in skipped && jobs[best].kind == kind && Runnable(jobs[best], now)
        invariant best < |jobs| ==>
          forall k :: 0 <= k < i && k !in skipped && jobs[k].kind == kind && Runnable(jobs[k], now) ==>
            jobs[best].createdAt <= jobs[k].createdAt
      {
        if i !in skipped && jobs[i].kind == kind && Runnable(jobs[i], now)
           && (best == |jobs| || jobs[i].createdAt < jobs[best].createdAt) {
          best := i;
        }
      }
      if best == |jobs| {
        return NothingToDo;
      }
      assert Candidate(jobs, kind, now, skipped, best);
      if Blocked(jobs, best) {
        return UniqueViolation;
      }
      jobs := jobs[best := ClaimedRow(jobs[best], now, lease)];
      r := Claimed(best);
    }

    method HeartbeatJob(id: nat, now: int, lease: nat)
      modifies this
      ensures jobs == Heartbeat(old(jobs), id, now, lease)
    {
      if id < |jobs| && jobs[id].status == Running {
        jobs := jobs[id := jobs[id].(lockedUntil := Some(now + lease))];
      }
    }

    method CompleteJob(id: nat)
      modifies this
      ensures jobs == Complete(old(jobs), id)
    {
      if id < |jobs| {
        jobs := jobs[id := jobs[id].(status := Succeeded, lockedUntil := None)];
      }
    }

    method FailJob(id: nat)
      modifies this
      ensures jobs == Fail(old(jobs), id)
      ensures id < |old(jobs)| ==> OnlyRowChanges(old(jobs), jobs, id)
      ensures id < |old(jobs)| ==>
        jobs[id].status == if old(jobs)[id].attempts >= old(jobs)[id].maxAttempts then Dead else Failed
    {
      if id < |jobs| {
        var status := if jobs[id].attempts >= jobs[id].maxAttempts then Dead else Failed;
        jobs := jobs[id := jobs[id].(status := status, lockedUntil := None)];
      }
    }

    method MarkJobDead(id: nat)
      modifies this
      ensures jobs == MarkDead(old(jobs), id)
    {
      if id < |jobs| {
        jobs := jobs[id := jobs[id].(status := Dead, lockedUntil := None)];
      }
    }

    method CountDeadJobs(kind: Kind, keys: set<string>) returns (n: nat)
      ensures n == CountDead(jobs, kind, keys)
    {
      n := 0;
      for i := 0 to |jobs|
        invariant n == CountDead(jobs[..i], kind, keys)
      {
        assert jobs[..i + 1][..i] == jobs[..i];
        if DeadIn(jobs[i], kind, keys) {
          n := n + 1;
        }
      }
      assert jobs[..|jobs|] == jobs;
    }
  }

  // ---- Invariants over all runs -----------------------------------------------------------------

  // What any run of the operations keeps, whoever calls them and whenever: the unique
  // index holds, a row is running exactly when it carries a lease, and a row that can be
  // retried has attempts left.
  ghost predicate QueueInv(jobs: Jobs) {
    && (forall i, j :: 0 <= i < j < |jobs| ==> !Clash(jobs[i], jobs[j]))
    && (forall i :: 0 <= i < |jobs| ==> (jobs[i].status == Running <==> jobs[i].lockedUntil.Some?))
    && (forall i :: 0 <= i < |jobs| && jobs[i].status == Failed ==> jobs[i].attempts < jobs[i].maxAttempts)
  }

  datatype QueueOp =
    | OpEnqueue(kind: Kind, key: string, maxAttempts: int, now: int)
    | OpClaim(id: nat, now: int, lease: nat)
    | OpHeartbeat(id: nat, now: int, lease: nat)
    | OpComplete(id: nat)
    | OpFail(id: nat)
    | OpMarkDead(id: nat)

  function ApplyOp(jobs: Jobs, op: QueueOp): Jobs {
    match op
    case OpEnqueue(kind, key, maxAttempts, now) => Enqueue(jobs, kind, key, maxAttempts, now)
    case OpClaim(id, now, lease) => if id < |jobs| && Runnable(jobs[id], now) then Claim(jobs, id, now, lease) else jobs
    case OpHeartbeat(id, now, lease) => Heartbeat(jobs, id, now, lease)
    case OpComplete(id) => Complete(jobs, id)
    case OpFail(id) => Fail(jobs, id)
    case OpMarkDead(id) => MarkDead(jobs, id)
  }

  lemma OpKeepsInv(jobs: Jobs, op: QueueOp)
    requires QueueInv(jobs)
    ensures QueueInv(ApplyOp(jobs, op))
  {
    match op
    case OpEnqueue(kind, key, maxAttempts, now) =>
    case OpClaim(id, now, lease) =>
      if id < |jobs| && Runnable(jobs[id], now) && !Blocked(jobs, id) {
        ClaimKeepsUnique(jobs, id, now, lease);
      }
    case OpHeartbeat(id, now, lease) =>
    case OpComplete(id) =>
    case OpFail(id) =>
    case OpMarkDead(id) =>
  }

  lemma ClaimKeepsUnique(jobs: Jobs, id: nat, now: int, lease: nat)
    requires QueueInv(jobs) && id < |jobs| && Runnable(jobs[id], now) && !Blocked(jobs, id)
    ensures QueueInv(Claim(jobs, id, now, lease))
  {
    var after := Claim(jobs, id, now, lease);
    forall i, j | 0 <= i < j < |after|
      ensures !Clash(after[i], after[j])
    {
      var other := if i == id then j else i;
      assert !Clash(jobs[i], jobs[j]);
      assert (i == id || j == id) && jobs[id].status == Failed ==>
        !(Active(jobs[other]) && jobs[other].kind == jobs[id].kind && jobs[other].key == jobs[id].key);
    }
  }

  // Rows keep their identity and their attempts never go down.
  lemma OpKeepsRows(jobs: Jobs, op: QueueOp)
    ensures |jobs| <= |ApplyOp(jobs, op)|
    ensures forall i :: 0 <= i < |jobs| ==> var after := ApplyOp(jobs, op)[i];
      && after.kind == jobs[i].kind && after.key == jobs[i].key && after.createdAt == jobs[i].createdAt
      && after.maxAttempts == jobs[i].maxAttempts && jobs[i].attempts <= after.attempts
  {}

  // ---- The life of a row ------------------------------------------------------------------------

  // What identifies a row and never changes.
  predicate SameJob(a: Job, b: Job) {
    a.kind == b.kind && a.key == b.key && a.maxAttempts == b.maxAttempts && a.createdAt == b.createdAt
  }

  // Only row id may differ, and it stays the same job.
  predicate OnlyRowChanges(jobs: Jobs, after: Jobs, id: nat) {
    && |after| == |jobs| && id < |jobs| && SameJob(after[id], jobs[id])
    && forall i :: 0 <= i < |jobs| && i != id ==> after[i] == jobs[i]
  }

  // A new job waits, has never been tried, and can be claimed at any time.
  lemma EnqueuedRow(jobs: Jobs, kind: Kind, key: string, maxAttempts: int, now: int, t: int)
    requires forall i :: 0 <= i < |jobs| && jobs[i].kind == kind && jobs[i].key == key ==>
      jobs[i].status != Pending && jobs[i].status != Running
    ensures var after := Enqueue(jobs, kind, key, maxAttempts, now);
      && |after| == |jobs| + 1 && after[..|jobs|] == jobs && after[|jobs|].kind == kind && after[|jobs|].key == key
      && after[|jobs|].status == Pending && after[|jobs|].attempts == 0 && after[|jobs|].maxAttempts == maxAttempts
      && after[|jobs|].createdAt == now && after[|jobs|].lockedUntil == None && Runnable(after[|jobs|], t)
  {}

  // A claimed job is running, has been tried once more, and nobody else can claim it until
  // the lease has passed; from then on anybody can.
  lemma ClaimedRowIs(jobs: Jobs, id: nat, now: int, lease: nat, t: int)
    requires id < |jobs| && Runnable(jobs[id], now) && !Blocked(jobs, id)
    ensures var after := ApplyOp(jobs, OpClaim(id, now, lease));
      && OnlyRowChanges(jobs, after, id) && after[id].status == Running
      && after[id].attempts == jobs[id].attempts + 1
      && (Runnable(after[id], t) <==> t > now + lease)
  {}

  // A heartbeat moves the end of the lease; for a job that is not running it does nothing.
  lemma HeartbeatRow(jobs: Jobs, id: nat, now: int, lease: nat, t: int)
    requires id < |jobs|
    ensures var after := Heartbeat(jobs, id, now, lease);
      && OnlyRowChanges(jobs, after, id)
      && after[id].status == jobs[id].status && after[id].attempts == jobs[id].attempts
      && (jobs[id].status == Running ==> (Runnable(after[id], t) <==> t > now + lease))
      && (jobs[id].status != Running ==> after == jobs)
  {}

  // A job reported as failed is given up exactly when its attempts have reached the limit;
  // otherwise it is failed and can be claimed again at once.
  lemma FailureReport(jobs: Jobs, id: nat, t: int)
    requires id < |jobs|
    ensures var after := Fail(jobs, id);
      && OnlyRowChanges(jobs, after, id) && after[id].attempts == jobs[id].attempts && after[id].lockedUntil == None
      && (after[id].status == Dead <==> jobs[id].attempts >= jobs[id].maxAttempts)
      && (after[id].status == Failed <==> jobs[id].attempts < jobs[id].maxAttempts)
      && (Runnable(after[id], t) <==> jobs[id].attempts < jobs[id].maxAttempts)
  {}

  // A finished job is never claimed again.
  lemma FinalReport(jobs: Jobs, id: nat, t: int)
    requires id < |jobs|
    ensures var done, dead := Complete(jobs, id), MarkDead(jobs, id);
      && OnlyRowChanges(jobs, done, id) && done[id].status == Succeeded && !Runnable(done[id], t)
      && OnlyRowChanges(jobs, dead, id) && dead[id].status == Dead && !Runnable(dead[id], t)
      && done[id].attempts == dead[id].attempts == jobs[id].attempts
      && done[id].lockedUntil == dead[id].lockedUntil == None
  {}

  function RunOps(ops: seq<QueueOp>): Jobs {
    if ops == [] then [] else ApplyOp(RunOps(ops[..|ops| - 1]), ops[|ops| - 1])
  }

  lemma {:induction false} RunsKeepInv(ops: seq<QueueOp>)
    ensures QueueInv(RunOps(ops))
  {
    hide QueueInv, ApplyOp;
    if ops == [] {
      EmptyInv();
    } else {
      RunsKeepInv(ops[..|ops| - 1]);
      OpKeepsInv(RunOps(ops[..|ops| - 1]), ops[|ops| - 1]);
    }
  }

  lemma EmptyInv()
    ensures QueueInv([])
  {}

  // Enqueueing a key that is already pending or running changes nothing, and afterwards
  // exactly one active row has the key.
  lemma EnqueueIsIdempotent(jobs: Jobs, kind: Kind, key: string, maxAttempts: int, now: int, maxAttempts': int,
                            now': int)
    requires QueueInv(jobs)
    ensures var once := Enqueue(jobs, kind, key, maxAttempts, now);
      && Enqueue(once, kind, key, maxAttempts', now') == once
      && var id := ActiveRow(once, kind, key);
         id < |once| &&
         forall i :: 0 <= i < |once| && Active(once[i]) && once[i].kind == kind && once[i].key == key ==> i == id
  {
    OpKeepsInv(jobs, OpEnqueue(kind, key, maxAttempts, now));
    var once := Enqueue(jobs, kind, key, maxAttempts, now);
    var id := ActiveRow(once, kind, key);
    assert ActiveRow(jobs, kind, key) == |jobs| ==>
      Active(once[|jobs|]) && once[|jobs|].kind == kind && once[|jobs|].key == key;
    assert forall i :: 0 <= i < id ==> !Clash(once[i], once[id]);
    assert forall i :: id < i < |once| ==> !Clash(once[id], once[i]);
  }
}

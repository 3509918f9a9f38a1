// How far the attempts of a job can go. max_attempts is looked at only when a failure is
// reported; taking over a job whose worker has gone silent counts as an attempt too.
module Attempts {
  import opened JobQueue

  // The number of attempts the settings allow; the first one is always made.
  function Cap(job: Job): nat {
    if job.maxAttempts > 1 then job.maxAttempts else 1
  }

  // The operation claims row i from a worker whose lease has passed.
  predicate Reclaims(jobs: Jobs, op: QueueOp, i: nat) {
    op.OpClaim? && op.id == i && i < |jobs| && jobs[i].status == Running && Runnable(jobs[i], op.now)
  }

  // A pending row has never been claimed.
  predicate FreshRows(jobs: Jobs) {
    forall i :: 0 <= i < |jobs| && jobs[i].status == Pending ==> jobs[i].attempts == 0
  }

  lemma OpKeepsFresh(jobs: Jobs, op: QueueOp)
    requires FreshRows(jobs)
    ensures FreshRows(ApplyOp(jobs, op))
  {}

  lemma {:induction false} RunsKeepFresh(ops: seq<QueueOp>)
    ensures FreshRows(RunOps(ops))
  {
    hide FreshRows, ApplyOp;
    if ops == [] {
      NoRowsFresh();
    } else {
      RunsKeepFresh(ops[..|ops| - 1]);
      OpKeepsFresh(RunOps(ops[..|ops| - 1]), ops[|ops| - 1]);
    }
  }

  lemma NoRowsFresh()
    ensures FreshRows([])
  {}

  // One operation: a takeover adds one attempt; anything else leaves the attempts as they
  // are or within the cap.
  lemma OpAttempts(jobs: Jobs, op: QueueOp, i: nat)
    requires QueueInv(jobs) && FreshRows(jobs) && i < |jobs|
    ensures i < |ApplyOp(jobs, op)| && Cap(ApplyOp(jobs, op)[i]) == Cap(jobs[i])
    ensures var before, after := jobs[i].attempts, ApplyOp(jobs, op)[i].attempts;
      && before <= after
      && (Reclaims(jobs, op, i) ==> after == before + 1)
      && (!Reclaims(jobs, op, i) ==> after == before || after <= Cap(jobs[i]))
  {
    hide ActiveRow;
    OpKeepsRows(jobs, op);
  }

  lemma OpAddsFreshRow(jobs: Jobs, op: QueueOp, i: nat)
    requires |jobs| <= i < |ApplyOp(jobs, op)|
    ensures ApplyOp(jobs, op)[i].attempts == 0
  {}

  // How often row i has been taken over along a run.
  function ReclaimCount(ops: seq<QueueOp>, i: nat): nat {
    if ops == [] then 0
    else
      var init, last := ops[..|ops| - 1], ops[|ops| - 1];
      ReclaimCount(init, i) + if Reclaims(RunOps(init), last, i) then 1 else 0
  }

  // Along every run, each attempt beyond the cap is paid for by a takeover.
  lemma {:induction false} AttemptsAreBounded(ops: seq<QueueOp>, i: nat)
    requires i < |RunOps(ops)|
    ensures RunOps(ops)[i].attempts <= Cap(RunOps(ops)[i]) + ReclaimCount(ops, i)
  {
    hide ApplyOp, QueueInv, FreshRows, Reclaims, Cap;
    if ops != [] {
      var init, last := ops[..|ops| - 1], ops[|ops| - 1];
      RunsKeepInv(init);
      RunsKeepFresh(init);
      if i < |RunOps(init)| {
        AttemptsAreBounded(init, i);
        OpAttempts(RunOps(init), last, i);
      } else {
        OpAddsFreshRow(RunOps(init), last, i);
      }
    }
  }

  // Somewhere along the run, row i is taken over although its attempts are used up.
  predicate TakenOverAtCap(ops: seq<QueueOp>, i: nat) {
    ops != []
    && var init, last := ops[..|ops| - 1], ops[|ops| - 1];
       || TakenOverAtCap(init, i)
       || (Reclaims(RunOps(init), last, i) && RunOps(init)[i].attempts >= Cap(RunOps(init)[i]))
  }

  lemma {:induction false} TakenOverRowExists(ops: seq<QueueOp>, i: nat)
    requires TakenOverAtCap(ops, i)
    ensures i < |RunOps(ops)|
  {
    hide ApplyOp;
    var init, last := ops[..|ops| - 1], ops[|ops| - 1];
    if TakenOverAtCap(init, i) { TakenOverRowExists(init, i); }
    OpKeepsRows(RunOps(init), last);
  }

  // Attempts stay within the cap exactly on the runs where no worker takes over a job
  // whose attempts are used up: a condition on the row that can be looked at before each
  // claim.
  lemma {:induction false} CapExceededExactly(ops: seq<QueueOp>, i: nat)
    requires i < |RunOps(ops)|
    ensures RunOps(ops)[i].attempts > Cap(RunOps(ops)[i]) <==> TakenOverAtCap(ops, i)
  {
    hide ApplyOp, QueueInv, FreshRows, Cap, Reclaims;
    if ops == [] {
    } else {
      var init, last := ops[..|ops| - 1], ops[|ops| - 1];
      RunsKeepInv(init);
      RunsKeepFresh(init);
      if i < |RunOps(init)| {
        CapExceededExactly(init, i);
        OpAttempts(RunOps(init), last, i);
      } else {
        OpAddsFreshRow(RunOps(init), last, i);
        NotTakenOverYet(init, last, i);
      }
    }
  }

  lemma NotTakenOverYet(init: seq<QueueOp>, last: QueueOp, i: nat)
    requires i >= |RunOps(init)|
    ensures !TakenOverAtCap(init, i) && !Reclaims(RunOps(init), last, i)
  {
    if TakenOverAtCap(init, i) { TakenOverRowExists(init, i); }
  }

  // ---- All attempts are made ---------------------------------------------------------------------

  // Somewhere in the run row i is parked from outside.
  predicate ParkedOutside(ops: seq<QueueOp>, i: nat) {
    exists k :: 0 <= k < |ops| && ops[k] == OpMarkDead(i)
  }

  predicate DeadIsExhausted(job: Job) {
    job.status == Dead ==> job.attempts >= job.maxAttempts
  }

  lemma OpKeepsExhausted(jobs: Jobs, op: QueueOp, i: nat)
    requires i < |jobs| && DeadIsExhausted(jobs[i]) && op != OpMarkDead(i)
    ensures i < |ApplyOp(jobs, op)| && DeadIsExhausted(ApplyOp(jobs, op)[i])
  {
    if op == OpFail(i) { FailureReport(jobs, i, 0); }
  }

  // No job is given up before its attempts have reached the limit, unless it was parked
  // from outside.
  lemma {:induction false} DeadMeansExhausted(ops: seq<QueueOp>, i: nat)
    requires i < |RunOps(ops)| && !ParkedOutside(ops, i) && RunOps(ops)[i].status == Dead
    ensures RunOps(ops)[i].attempts >= RunOps(ops)[i].maxAttempts
  {
    RowIsExhausted(ops, i);
  }

  lemma {:induction false} RowIsExhausted(ops: seq<QueueOp>, i: nat)
    requires i < |RunOps(ops)| && !ParkedOutside(ops, i)
    ensures DeadIsExhausted(RunOps(ops)[i])
  {
    hide ApplyOp;
    if ops != [] {
      var init, last := ops[..|ops| - 1], ops[|ops| - 1];
      assert last != OpMarkDead(i) && !ParkedOutside(init, i) by {
        assert forall k :: 0 <= k < |init| ==> init[k] == ops[k];
      }
      if i < |RunOps(init)| {
        RowIsExhausted(init, i);
        OpKeepsExhausted(RunOps(init), last, i);
      } else {
        NewRowIsPending(RunOps(init), last, i);
      }
    }
  }

  lemma NewRowIsPending(jobs: Jobs, op: QueueOp, i: nat)
    requires |jobs| <= i < |ApplyOp(jobs, op)|
    ensures ApplyOp(jobs, op)[i].status == Pending
  {}

  // Row i is claimed n times, and each time its worker reports a failure.
  function FailTimes(jobs: Jobs, i: nat, n: nat, lease: nat): Jobs {
    if n == 0 then jobs
    else ApplyOp(ApplyOp(FailTimes(jobs, i, n - 1, lease), OpClaim(i, 0, lease)), OpFail(i))
  }

  // A job that always fails is tried exactly max_attempts times, but once at least: until
  // then it stays in the queue, after that it is dead and nothing touches it.
  lemma {:induction false} TriedUntilTheLimit(jobs: Jobs, i: nat, n: nat, lease: nat)
    requires i < |jobs| && jobs[i].status == Pending && jobs[i].attempts == 0
    requires forall j :: 0 <= j < |jobs| && j != i && Active(jobs[j]) && jobs[j].kind == jobs[i].kind ==>
      jobs[j].key != jobs[i].key
    ensures var after := FailTimes(jobs, i, n, lease);
      && OnlyRowChanges(jobs, after, i)
      && (n < Cap(jobs[i]) ==> after[i].status == (if n == 0 then Pending else Failed) && after[i].attempts == n)
      && (n >= Cap(jobs[i]) ==> after[i].status == Dead && after[i].attempts == Cap(jobs[i]))
  {
    hide ApplyOp;
    if n > 0 {
      TriedUntilTheLimit(jobs, i, n - 1, lease);
      OneTry(FailTimes(jobs, i, n - 1, lease), i, lease);
    }
  }

  lemma OneTry(jobs: Jobs, i: nat, lease: nat)
    requires i < |jobs| && jobs[i].status in {Pending, Failed, Dead}
    requires forall j :: 0 <= j < |jobs| && j != i && Active(jobs[j]) && jobs[j].kind == jobs[i].kind ==>
      jobs[j].key != jobs[i].key
    requires jobs[i].status == Dead ==> jobs[i].attempts >= jobs[i].maxAttempts
    ensures var after := ApplyOp(ApplyOp(jobs, OpClaim(i, 0, lease)), OpFail(i));
      && OnlyRowChanges(jobs, after, i)
      && after[i].attempts == jobs[i].attempts + (if jobs[i].status == Dead then 0 else 1)
      && after[i].status == if after[i].attempts >= jobs[i].maxAttempts then Dead else Failed
  {
    if jobs[i].status == Dead {
      assert ApplyOp(jobs, OpClaim(i, 0, lease)) == jobs;
      FailureReport(jobs, i, 0);
    } else {
      ClaimedRowIs(jobs, i, 0, lease, 0);
      FailureReport(ApplyOp(jobs, OpClaim(i, 0, lease)), i, 0);
    }
  }
}

// When claims keep being refused. A failed row whose key is active again cannot become
// running without breaking the unique index; if it is the oldest, every claim that does not
// skip it picks it.
module Blocking {
  import opened Wrappers
  import opened JobQueue

  // ---- One claim -------------------------------------------------------------------------------

  // The partial unique index itself.
  predicate UniqueIndex(jobs: Jobs) {
    forall i, j :: 0 <= i < j < |jobs| ==> !Clash(jobs[i], jobs[j])
  }

  // What the statement may do: pick a candidate, update it, and be rolled back when the
  // result breaks the index.
  ghost predicate MayDo(jobs: Jobs, kind: Kind, now: int, lease: nat, skipped: set<nat>, after: Jobs, r: ClaimOutcome) {
    match r
    case NothingToDo => after == jobs && NoneRunnable(jobs, kind, now, skipped)
    case Claimed(id) =>
      Candidate(jobs, kind, now, skipped, id) && after == jobs[id := ClaimedRow(jobs[id], now, lease)] &&
        UniqueIndex(after)
    case UniqueViolation =>
      && after == jobs
      && exists id: nat :: Candidate(jobs, kind, now, skipped, id) &&
           !UniqueIndex(jobs[id := ClaimedRow(jobs[id], now, lease)])
  }

  // The index refuses the update exactly for a failed row whose key is active again.
  lemma IndexRefusesExactly(jobs: Jobs, id: nat, now: int, lease: nat)
    requires QueueInv(jobs) && id < |jobs| && Runnable(jobs[id], now)
    ensures UniqueIndex(jobs[id := ClaimedRow(jobs[id], now, lease)]) <==> !Blocked(jobs, id)
  {
    var after := jobs[id := ClaimedRow(jobs[id], now, lease)];
    if Blocked(jobs, id) {
      var i :| 0 <= i < |jobs| && i != id && Active(jobs[i]) && jobs[i].kind == jobs[id].kind &&
        jobs[i].key == jobs[id].key;
      assert i < id ==> Clash(after[i], after[id]);
      assert id < i ==> Clash(after[id], after[i]);
    } else {
      ClaimKeepsUnique(jobs, id, now, lease);
      assert after == JobQueue.Claim(jobs, id, now, lease);
    }
  }

  // Something is runnable exactly when there is a candidate.
  lemma CandidateExists(jobs: Jobs, kind: Kind, now: int, skipped: set<nat>)
    ensures NoneRunnable(jobs, kind, now, skipped) <==> forall id: nat :: !Candidate(jobs, kind, now, skipped, id)
  {
    if !NoneRunnable(jobs, kind, now, skipped) {
      var i :| 0 <= i < |jobs| && i !in skipped && jobs[i].kind == kind && Runnable(jobs[i], now);
      assert Eligible(jobs, kind, now, skipped, i);
      var id := OldestRunnable(jobs, kind, now, skipped, |jobs|);
      assert Candidate(jobs, kind, now, skipped, id);
    }
  }

  predicate Eligible(jobs: Jobs, kind: Kind, now: int, skipped: set<nat>, i: nat) {
    i < |jobs| && i !in skipped && jobs[i].kind == kind && Runnable(jobs[i], now)
  }

  lemma {:induction false} OldestRunnable(jobs: Jobs, kind: Kind, now: int, skipped: set<nat>, n: nat) returns (id: nat)
    requires n <= |jobs| && exists i :: 0 <= i < n && Eligible(jobs, kind, now, skipped, i)
    ensures id < n && Eligible(jobs, kind, now, skipped, id)
    ensures forall i :: 0 <= i < n && Eligible(jobs, kind, now, skipped, i) ==> jobs[id].createdAt <= jobs[i].createdAt
  {
    if exists i :: 0 <= i < n - 1 && Eligible(jobs, kind, now, skipped, i) {
      id := OldestRunnable(jobs, kind, now, skipped, n - 1);
      if Eligible(jobs, kind, now, skipped, n - 1) && jobs[n - 1].createdAt < jobs[id].createdAt {
        id := n - 1;
      }
    } else {
      id := n - 1;
    }
  }

  // Which outcomes a claim can have, from the rows alone: nothing exactly when nothing is
  // runnable, a violation exactly when some candidate is blocked, a given row exactly when
  // it is a candidate that is not. One of them is always possible.
  lemma ClaimOutcomes(jobs: Jobs, kind: Kind, now: int, lease: nat, skipped: set<nat>, id: nat)
    requires QueueInv(jobs)
    ensures (exists after :: MayDo(jobs, kind, now, lease, skipped, after, NothingToDo))
      <==> forall i: nat :: !Candidate(jobs, kind, now, skipped, i)
    ensures (exists after :: MayDo(jobs, kind, now, lease, skipped, after, UniqueViolation))
      <==> exists i: nat :: Candidate(jobs, kind, now, skipped, i) && Blocked(jobs, i)
    ensures (exists after :: MayDo(jobs, kind, now, lease, skipped, after, Claimed(id)))
      <==> Candidate(jobs, kind, now, skipped, id) && !Blocked(jobs, id)
    ensures exists after, r :: MayDo(jobs, kind, now, lease, skipped, after, r)
  {
    hide QueueInv, UniqueIndex, Blocked, Candidate;
    CandidateExists(jobs, kind, now, skipped);
    forall i: nat | Candidate(jobs, kind, now, skipped, i)
      ensures i < |jobs| && (UniqueIndex(jobs[i := ClaimedRow(jobs[i], now, lease)]) <==> !Blocked(jobs, i))
    {
      CandidateIsRunnable(jobs, kind, now, skipped, i);
      IndexRefusesExactly(jobs, i, now, lease);
    }
    if NoneRunnable(jobs, kind, now, skipped) {
      assert MayDo(jobs, kind, now, lease, skipped, jobs, NothingToDo);
    } else {
      var i: nat :| Candidate(jobs, kind, now, skipped, i);
      CandidateOutcome(jobs, kind, now, lease, skipped, i);
    }
    if i: nat :| Candidate(jobs, kind, now, skipped, i) && Blocked(jobs, i) {
      CandidateOutcome(jobs, kind, now, lease, skipped, i);
    }
    if Candidate(jobs, kind, now, skipped, id) {
      CandidateOutcome(jobs, kind, now, lease, skipped, id);
    }
  }

  lemma CandidateIsRunnable(jobs: Jobs, kind: Kind, now: int, skipped: set<nat>, i: nat)
    requires Candidate(jobs, kind, now, skipped, i)
    ensures i < |jobs| && Runnable(jobs[i], now)
  {}

  // What a claim that picks this candidate does.
  lemma CandidateOutcome(jobs: Jobs, kind: Kind, now: int, lease: nat, skipped: set<nat>, i: nat)
    requires QueueInv(jobs) && Candidate(jobs, kind, now, skipped, i)
    ensures i < |jobs|
    ensures Blocked(jobs, i) ==> MayDo(jobs, kind, now, lease, skipped, jobs, UniqueViolation)
    ensures !Blocked(jobs, i) ==> MayDo(jobs, kind, now, lease, skipped, jobs[i := ClaimedRow(jobs[i], now, lease)],
      Claimed(i))
  {
    hide UniqueIndex, Blocked;
    IndexRefusesExactly(jobs, i, now, lease);
  }

  // ---- Being stuck -----------------------------------------------------------------------------

  predicate Waiting(job: Job) {
    job.status == Pending || job.status == Running || job.status == Failed
  }

  // The oldest rows of a kind that are not settled, runnable yet or not.
  predicate IsHead(jobs: Jobs, kind: Kind, id: nat) {
    && id < |jobs| && jobs[id].kind == kind && Waiting(jobs[id])
    && forall i :: 0 <= i < |jobs| && jobs[i].kind == kind && Waiting(jobs[i]) ==>
         jobs[id].createdAt <= jobs[i].createdAt
  }

  ghost predicate Stuck(jobs: Jobs, kind: Kind) {
    && (exists id: nat :: IsHead(jobs, kind, id))
    && (forall id: nat :: IsHead(jobs, kind, id) ==> Blocked(jobs, id))
  }

  // Operations that leave the oldest rows alone: rows enqueued later, claims that skip
  // nothing, heartbeats, reports on unsettled jobs with other keys, and the other kind's
  // operations.
  ghost predicate Quiet(jobs: Jobs, kind: Kind, op: QueueOp) {
    match op
    case OpEnqueue(k, _, _, now) => k == kind ==> forall id: nat :: IsHead(jobs, kind, id) ==> jobs[id].createdAt < now
    case OpClaim(id, now, _) => id < |jobs| && (jobs[id].kind == kind ==> Candidate(jobs, kind, now, {}, id))
    case OpHeartbeat(_, _, _) => true
    case OpComplete(id) => Unrelated(jobs, kind, id)
    case OpFail(id) => Unrelated(jobs, kind, id)
    case OpMarkDead(id) => Unrelated(jobs, kind, id)
  }

  ghost predicate Unrelated(jobs: Jobs, kind: Kind, i: nat) {
    i < |jobs| && jobs[i].kind == kind ==>
      Waiting(jobs[i]) && forall id: nat :: IsHead(jobs, kind, id) ==> jobs[id].key != jobs[i].key
  }

  function Continue(jobs: Jobs, ops: seq<QueueOp>): Jobs
    decreases |ops|
  {
    if ops == [] then jobs else Continue(ApplyOp(jobs, ops[0]), ops[1..])
  }

  ghost predicate AllQuiet(jobs: Jobs, kind: Kind, ops: seq<QueueOp>)
    decreases |ops|
  {
    ops == [] || (Quiet(jobs, kind, ops[0]) && AllQuiet(ApplyOp(jobs, ops[0]), kind, ops[1..]))
  }

  // No row of the kind has been claimed since, new ones included.
  predicate NoneTaken(jobs: Jobs, after: Jobs, kind: Kind) {
    && |jobs| <= |after|
    && forall i :: 0 <= i < |after| && after[i].kind == kind ==>
         after[i].attempts == if i < |jobs| then jobs[i].attempts else 0
  }

  lemma StuckClaimDoesNothing(jobs: Jobs, kind: Kind, id: nat, now: int, lease: nat)
    requires Stuck(jobs, kind) && Candidate(jobs, kind, now, {}, id)
    ensures ApplyOp(jobs, OpClaim(id, now, lease)) == jobs
  {
    var h: nat :| IsHead(jobs, kind, h);
    assert Blocked(jobs, h);
    assert Runnable(jobs[h], now);
    assert IsHead(jobs, kind, id);
  }

  // The oldest rows stay the oldest and stay blocked.
  lemma HeadsStay(jobs: Jobs, kind: Kind, op: QueueOp)
    requires QueueInv(jobs) && Stuck(jobs, kind) && Quiet(jobs, kind, op)
    ensures Stuck(ApplyOp(jobs, op), kind) && NoneTaken(jobs, ApplyOp(jobs, op), kind)
  {
    hide ActiveRow;
    if op.OpClaim? && jobs[op.id].kind == kind {
      StuckClaimDoesNothing(jobs, kind, op.id, op.now, op.lease);
    } else {
      HeadRowsStay(jobs, kind, op);
    }
  }

  lemma HeadRowsStay(jobs: Jobs, kind: Kind, op: QueueOp)
    requires QueueInv(jobs) && Stuck(jobs, kind) && Quiet(jobs, kind, op)
    requires op.OpClaim? ==> jobs[op.id].kind != kind
    ensures Stuck(ApplyOp(jobs, op), kind) && NoneTaken(jobs, ApplyOp(jobs, op), kind)
  {
    hide ActiveRow, Blocked, IsHead, Quiet, ApplyOp;
    var after := ApplyOp(jobs, op);
    forall id: nat | IsHead(jobs, kind, id)
      ensures id < |after| && IsHead(after, kind, id) && Blocked(after, id)
    {
      BlockerStays(jobs, kind, op, id);
      HeadStays(jobs, kind, op, id);
    }
    forall id: nat | IsHead(after, kind, id)
      ensures id < |after| && Blocked(after, id)
    {
      NoNewHead(jobs, kind, op, id);
    }
    NothingTaken(jobs, kind, op);
  }

  // What a quiet operation does to a row of the kind: it stays as old and as unsettled as
  // it was, and is not claimed; a new row is younger than the heads.
  lemma QuietRow(jobs: Jobs, kind: Kind, op: QueueOp, i: nat, h: nat)
    requires Quiet(jobs, kind, op) && (op.OpClaim? ==> jobs[op.id].kind != kind) && IsHead(jobs, kind, h)
    requires i < |ApplyOp(jobs, op)| && ApplyOp(jobs, op)[i].kind == kind
    ensures var after := ApplyOp(jobs, op);
      && |jobs| <= |after|
      && (i < |jobs| ==> jobs[i].kind == kind && after[i].createdAt == jobs[i].createdAt)
      && (i < |jobs| ==> after[i].attempts == jobs[i].attempts)
      && (i < |jobs| && Waiting(after[i]) ==> Waiting(jobs[i]))
      && (i >= |jobs| ==> after[i].createdAt > jobs[h].createdAt && after[i].attempts == 0)
  {
    hide ActiveRow;
  }

  lemma HeadStays(jobs: Jobs, kind: Kind, op: QueueOp, id: nat)
    requires Quiet(jobs, kind, op) && (op.OpClaim? ==> jobs[op.id].kind != kind) && IsHead(jobs, kind, id)
    requires id < |ApplyOp(jobs, op)| && ApplyOp(jobs, op)[id] == jobs[id]
    ensures IsHead(ApplyOp(jobs, op), kind, id)
  {
    hide ApplyOp, Quiet;
    var after := ApplyOp(jobs, op);
    forall i | 0 <= i < |after| && after[i].kind == kind && Waiting(after[i])
      ensures after[id].createdAt <= after[i].createdAt
    {
      QuietRow(jobs, kind, op, i, id);
    }
  }

  lemma NoNewHead(jobs: Jobs, kind: Kind, op: QueueOp, id: nat)
    requires Quiet(jobs, kind, op) && (op.OpClaim? ==> jobs[op.id].kind != kind)
    requires (exists h: nat :: IsHead(jobs, kind, h)) && IsHead(ApplyOp(jobs, op), kind, id)
    requires forall h: nat :: IsHead(jobs, kind, h) ==> h < |ApplyOp(jobs, op)| && IsHead(ApplyOp(jobs, op), kind, h)
    ensures IsHead(jobs, kind, id)
  {
    hide ApplyOp, Quiet;
    var h: nat :| IsHead(jobs, kind, h);
    QuietRow(jobs, kind, op, id, h);
    QuietRow(jobs, kind, op, h, h);
  }

  lemma NothingTaken(jobs: Jobs, kind: Kind, op: QueueOp)
    requires Quiet(jobs, kind, op) && (op.OpClaim? ==> jobs[op.id].kind != kind)
    requires exists h: nat :: IsHead(jobs, kind, h)
    ensures NoneTaken(jobs, ApplyOp(jobs, op), kind)
  {
    hide ApplyOp, Quiet, IsHead;
    var h: nat :| IsHead(jobs, kind, h);
    OpKeepsRows(jobs, op);
    forall i | 0 <= i < |ApplyOp(jobs, op)| && ApplyOp(jobs, op)[i].kind == kind
      ensures ApplyOp(jobs, op)[i].attempts == if i < |jobs| then jobs[i].attempts else 0
    {
      QuietRow(jobs, kind, op, i, h);
    }
  }

  lemma BlockerStays(jobs: Jobs, kind: Kind, op: QueueOp, id: nat)
    requires QueueInv(jobs) && Stuck(jobs, kind) && Quiet(jobs, kind, op) && IsHead(jobs, kind, id)
    requires op.OpClaim? ==> jobs[op.id].kind != kind
    ensures id < |ApplyOp(jobs, op)| && ApplyOp(jobs, op)[id] == jobs[id] && Blocked(ApplyOp(jobs, op), id)
  {
    hide ActiveRow;
    assert Blocked(jobs, id);
    var i :| 0 <= i < |jobs| && i != id && Active(jobs[i]) && jobs[i].kind == jobs[id].kind &&
      jobs[i].key == jobs[id].key;
    var after := ApplyOp(jobs, op);
    assert Active(after[i]) && after[i].kind == jobs[id].kind && after[i].key == jobs[id].key;
  }

  lemma {:induction false} StuckLasts(jobs: Jobs, kind: Kind, ops: seq<QueueOp>)
    requires QueueInv(jobs) && Stuck(jobs, kind) && AllQuiet(jobs, kind, ops)
    ensures Stuck(Continue(jobs, ops), kind) && NoneTaken(jobs, Continue(jobs, ops), kind)
    decreases |ops|
  {
    hide QueueInv, Stuck, Quiet, ApplyOp;
    if ops != [] {
      HeadsStay(jobs, kind, ops[0]);
      OpKeepsInv(jobs, ops[0]);
      StuckLasts(ApplyOp(jobs, ops[0]), kind, ops[1..]);
      OpsKeepKinds(ApplyOp(jobs, ops[0]), ops[1..]);
    }
  }

  lemma {:induction false} OpsKeepKinds(jobs: Jobs, ops: seq<QueueOp>)
    ensures |jobs| <= |Continue(jobs, ops)|
    ensures forall i :: 0 <= i < |jobs| ==> Continue(jobs, ops)[i].kind == jobs[i].kind
    decreases |ops|
  {
    hide ApplyOp;
    if ops != [] {
      OpKeepsRows(jobs, ops[0]);
      OpsKeepKinds(ApplyOp(jobs, ops[0]), ops[1..]);
    }
  }

  // If the oldest rows are not all blocked, or there are none, some quiet continuation
  // gets a row claimed.
  lemma NotStuckCanGoOn(jobs: Jobs, kind: Kind) returns (ops: seq<QueueOp>)
    requires QueueInv(jobs) && !Stuck(jobs, kind)
    ensures AllQuiet(jobs, kind, ops) && !NoneTaken(jobs, Continue(jobs, ops), kind)
  {
    hide ActiveRow;
    if id: nat :| IsHead(jobs, kind, id) && !Blocked(jobs, id) {
      var now := if jobs[id].status == Running then jobs[id].lockedUntil.value + 1 else 0;
      var op := OpClaim(id, now, 0);
      ops := [op];
      assert Candidate(jobs, kind, now, {}, id);
      var after := ApplyOp(jobs, op);
      assert Continue(jobs, ops) == after by { assert ops[1..] == []; }
      assert after[id].attempts == jobs[id].attempts + 1 && after[id].kind == kind;
    } else {
      ops := FirstJobIsTaken(jobs, kind);
    }
  }

  lemma FirstJobIsTaken(jobs: Jobs, kind: Kind) returns (ops: seq<QueueOp>)
    requires QueueInv(jobs) && !Stuck(jobs, kind) && forall id: nat :: IsHead(jobs, kind, id) ==> Blocked(jobs, id)
    ensures AllQuiet(jobs, kind, ops) && !NoneTaken(jobs, Continue(jobs, ops), kind)
  {
    assert forall id: nat :: !IsHead(jobs, kind, id);
    NoHeadNoneWaiting(jobs, kind);
    var enqueue, claim := OpEnqueue(kind, "", 1, 0), OpClaim(|jobs|, 0, 0);
    ops := [enqueue, claim];
    var more := ApplyOp(jobs, enqueue);
    assert more == jobs + [NewJob(kind, "", 1, 0)];
    assert Candidate(more, kind, 0, {}, |jobs|) && !Blocked(more, |jobs|);
    var after := ApplyOp(more, claim);
    assert ops[1..] == [claim] && [claim][1..] == [];
    assert Continue(jobs, ops) == Continue(more, [claim]) == Continue(after, []) == after;
    assert AllQuiet(more, kind, [claim]);
    assert after[|jobs|].attempts == 1 && after[|jobs|].kind == kind;
  }

  lemma NoHeadNoneWaiting(jobs: Jobs, kind: Kind)
    requires forall id: nat :: !IsHead(jobs, kind, id)
    ensures forall i :: 0 <= i < |jobs| && jobs[i].kind == kind ==> !Waiting(jobs[i])
  {
    if exists i :: 0 <= i < |jobs| && InLine(jobs, kind, i) {
      var id := OldestWaiting(jobs, kind, |jobs|);
      assert IsHead(jobs, kind, id);
    }
    forall i | 0 <= i < |jobs| && jobs[i].kind == kind
      ensures !Waiting(jobs[i])
    {
      assert !InLine(jobs, kind, i);
    }
  }

  predicate InLine(jobs: Jobs, kind: Kind, i: nat) {
    i < |jobs| && jobs[i].kind == kind && Waiting(jobs[i])
  }

  lemma {:induction false} OldestWaiting(jobs: Jobs, kind: Kind, n: nat) returns (id: nat)
    requires n <= |jobs| && exists i :: 0 <= i < n && InLine(jobs, kind, i)
    ensures id < n && InLine(jobs, kind, id)
    ensures forall i :: 0 <= i < n && InLine(jobs, kind, i) ==> jobs[id].createdAt <= jobs[i].createdAt
  {
    if exists i :: 0 <= i < n - 1 && InLine(jobs, kind, i) {
      id := OldestWaiting(jobs, kind, n - 1);
      if InLine(jobs, kind, n - 1) && jobs[n - 1].createdAt < jobs[id].createdAt {
        id := n - 1;
      }
    } else {
      id := n - 1;
    }
  }

  // No quiet continuation ever gets a row of the kind claimed, exactly when the kind's
  // oldest unsettled rows are all failed rows whose keys are active again.
  lemma StuckExactly(jobs: Jobs, kind: Kind)
    requires QueueInv(jobs)
    ensures (forall ops :: AllQuiet(jobs, kind, ops) ==> NoneTaken(jobs, Continue(jobs, ops), kind))
      <==> Stuck(jobs, kind)
  {
    hide QueueInv, Stuck, AllQuiet, NoneTaken, Continue;
    if Stuck(jobs, kind) {
      forall ops: seq<QueueOp> | AllQuiet(jobs, kind, ops)
        ensures NoneTaken(jobs, Continue(jobs, ops), kind)
      {
        StuckLasts(jobs, kind, ops);
      }
    } else {
      var ops := NotStuckCanGoOn(jobs, kind);
    }
  }

  // Five operations that lead to such a table: a job fails, its key is enqueued again, and
  // another job follows.
  const TO_A_STUCK_TABLE: seq<QueueOp> := [
    OpEnqueue(Analysis, "a", 5, 0), OpClaim(0, 0, 1), OpFail(0), OpEnqueue(Analysis, "a", 5, 1),
    OpEnqueue(Analysis, "b", 5, 2)]

  const STUCK_TABLE: Jobs := [
    Job(Analysis, "a", Failed, 1, 5, None, 0), Job(Analysis, "a", Pending, 0, 5, None, 1),
    Job(Analysis, "b", Pending, 0, 5, None, 2)]

  lemma OneMore(ops: seq<QueueOp>, op: QueueOp)
    ensures RunOps(ops + [op]) == ApplyOp(RunOps(ops), op)
  {
    assert (ops + [op])[..|ops|] == ops;
  }

  lemma StuckTableIsReached()
    ensures RunOps(TO_A_STUCK_TABLE) == STUCK_TABLE
  {
    hide ApplyOp, RunOps;
    var ops := TO_A_STUCK_TABLE;
    NothingRun();
    OneMore([], ops[0]);
    OneMore([ops[0]], ops[1]);
    OneMore([ops[0], ops[1]], ops[2]);
    OneMore([ops[0], ops[1], ops[2]], ops[3]);
    OneMore([ops[0], ops[1], ops[2], ops[3]], ops[4]);
    assert [] + [ops[0]] == [ops[0]] && [ops[0]] + [ops[1]] == [ops[0], ops[1]];
    assert [ops[0], ops[1]] + [ops[2]] == [ops[0], ops[1], ops[2]];
    assert [ops[0], ops[1], ops[2]] + [ops[3]] == [ops[0], ops[1], ops[2], ops[3]];
    assert [ops[0], ops[1], ops[2], ops[3]] + [ops[4]] == ops;
    JobFails();
    JobsFollow();
  }

  lemma NothingRun()
    ensures RunOps([]) == []
  {}

  lemma JobFails()
    ensures ApplyOp(ApplyOp(ApplyOp([], OpEnqueue(Analysis, "a", 5, 0)), OpClaim(0, 0, 1)), OpFail(0))
      == STUCK_TABLE[..1]
  {}

  lemma JobsFollow()
    ensures ApplyOp(ApplyOp(STUCK_TABLE[..1], OpEnqueue(Analysis, "a", 5, 1)), OpEnqueue(Analysis, "b", 5, 2))
      == STUCK_TABLE
  {
    assert ApplyOp(STUCK_TABLE[..1], OpEnqueue(Analysis, "a", 5, 1)) == STUCK_TABLE[..2];
  }

  // The table is stuck for claims that skip nothing, with a runnable job waiting behind. A
  // claim that runs while another transaction has the blocked row locked gets through.
  lemma StuckIsReachable(now: int)
    ensures var jobs := RunOps(TO_A_STUCK_TABLE);
      && Stuck(jobs, Analysis) && |jobs| == 3 && Runnable(jobs[2], now) && jobs[2].key == "b" && !Blocked(jobs, 2)
      && Candidate(jobs, Analysis, now, {0}, 1) && !Blocked(jobs, 1)
  {
    StuckTableIsReached();
    var jobs := STUCK_TABLE;
    assert Active(jobs[1]);
    assert IsHead(jobs, Analysis, 0) && Blocked(jobs, 0);
  }
}
